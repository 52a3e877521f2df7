/**
 * The login throttle: recent failures per identifier, and a lockout once too many of them are close together.
 * Times are microseconds.
 */
module LoginThrottle {
  import opened Text

  const MAX_ATTEMPTS := 5
  const WINDOW := 2 * 60 * 1_000_000
  const LOCKOUT := 5 * 60 * 1_000_000

  datatype Outcome = Rejected | Failed | Succeeded

  /** The two module-level tables. */
  datatype State = State(failed: map<string, seq<int>>, lockouts: map<string, int>)

  const Empty := State(map[], map[])

  function Attempts(s: State, id: string): seq<int> {
    if id in s.failed then s.failed[id] else []
  }

  function Lockout(s: State, id: string): Option<int> {
    if id in s.lockouts then Some(s.lockouts[id]) else None
  }

  predicate Locked(s: State, id: string, now: int) {
    id in s.lockouts && s.lockouts[id] > now
  }

  function DropOld(attempts: seq<int>, now: int): seq<int> {
    if attempts != [] && now - attempts[0] > WINDOW then DropOld(attempts[1..], now) else attempts
  }

  function Prune(s: State, id: string, now: int): State {
    var kept := DropOld(Attempts(s, id), now);
    s.(failed := if kept == [] then s.failed - {id} else s.failed[id := kept])
  }

  function RegisterFailure(s: State, id: string, now: int): State {
    var attempts := Attempts(s, id) + [now];
    if |attempts| >= MAX_ATTEMPTS then State(s.failed[id := []], s.lockouts[id := now + LOCKOUT])
    else s.(failed := s.failed[id := attempts])
  }

  function ClearFailures(s: State, id: string): State {
    State(s.failed - {id}, s.lockouts - {id})
  }

  /** One request from start to end, without interference. */
  function Login(s: State, id: string, now: int, authentic: bool): (State, Outcome) {
    if Locked(s, id, now) then (s, Rejected)
    else if authentic then (ClearFailures(Prune(s, id, now), id), Succeeded)
    else (RegisterFailure(Prune(s, id, now), id, now), Failed)
  }

  class Throttle {
    var failed: map<string, seq<int>>
    var lockouts: map<string, int>

    function View(): State
      reads this
    {
      State(failed, lockouts)
    }

    constructor ()
      ensures View() == Empty
    {
      failed, lockouts := map[], map[];
    }

    method PruneAttempts(id: string, now: int)
      modifies this
      ensures View() == Prune(old(View()), id, now)
    {
      if id !in failed {
        failed := failed[id := []];
      }
      ghost var start := failed[id];
      while failed[id] != [] && now - failed[id][0] > WINDOW
        invariant id in failed && failed == old(failed)[id := failed[id]]
        invariant DropOld(failed[id], now) == DropOld(start, now)
        invariant lockouts == old(lockouts)
        decreases |failed[id]|
      {
        failed := failed[id := failed[id][1..]];
      }
      if failed[id] == [] {
        failed := failed - {id};
      }
    }

    method Register(id: string, now: int)
      modifies this
      ensures View() == RegisterFailure(old(View()), id, now)
    {
      failed := failed[id := (if id in failed then failed[id] else []) + [now]];
      if |failed[id]| >= MAX_ATTEMPTS {
        lockouts := lockouts[id := now + LOCKOUT];
        failed := failed[id := []];
      }
    }

    method Clear(id: string)
      modifies this
      ensures View() == ClearFailures(old(View()), id)
    {
      failed := failed - {id};
      lockouts := lockouts - {id};
    }

    /** The first locked section: refuse while locked out, otherwise forget old failures. */
    method Check(id: string, now: int) returns (locked: bool)
      modifies this
      ensures locked == Locked(old(View()), id, now)
      ensures View() == if locked then old(View()) else Prune(old(View()), id, now)
    {
      if id in lockouts && lockouts[id] > now {
        return true;
      }
      PruneAttempts(id, now);
      return false;
    }

    method Attempt(id: string, now: int, authentic: bool) returns (outcome: Outcome)
      modifies this
      ensures (View(), outcome) == Login(old(View()), id, now, authentic)
    {
      var locked := Check(id, now);
      if locked {
        return Rejected;
      }
      if !authentic {
        Register(id, now);
        return Failed;
      }
      Clear(id);
      return Succeeded;
    }
  }

  // ---------------------------------------------------------------- sequential runs

  datatype Event = Event(id: string, now: int, authentic: bool)

  function Run(events: seq<Event>): State {
    if events == [] then Empty
    else
      var e := events[|events| - 1];
      Login(Run(events[..|events| - 1]), e.id, e.now, e.authentic).0
  }

  ghost predicate TimeAdvances(events: seq<Event>) {
    forall i, j | 0 <= i < j < |events| :: events[i].now <= events[j].now
  }

  /** The failures registered for an identifier since its last successful login. */
  function History(events: seq<Event>, id: string): seq<int> {
    if events == [] then []
    else
      var front, e := events[..|events| - 1], events[|events| - 1];
      if e.id != id then History(front, id)
      else
        match Login(Run(front), id, e.now, e.authentic).1
        case Rejected => History(front, id)
        case Failed => History(front, id) + [e.now]
        case Succeeded => []
  }

  /** The failure at position j completes a burst: it and the four before it lie within one window. */
  ghost predicate Burst(h: seq<int>, j: int) {
    MAX_ATTEMPTS - 1 <= j < |h| && h[j] - h[j - (MAX_ATTEMPTS - 1)] <= WINDOW
  }

  ghost predicate Spread(h: seq<int>) {
    forall i | 0 <= i < |h| - MAX_ATTEMPTS :: h[i + MAX_ATTEMPTS] - h[i] > WINDOW
  }

  ghost predicate Ascending(h: seq<int>) {
    forall i, j | 0 <= i < j < |h| :: h[i] <= h[j]
  }

  /** The lockout in the table is the one the latest burst asks for. */
  ghost predicate LockoutIsLatestBurst(lock: Option<int>, h: seq<int>) {
    match lock
    case None => forall j :: !Burst(h, j)
    case Some(until) => exists j :: Burst(h, j) && until == h[j] + LOCKOUT && forall i | Burst(h, i) :: i <= j
  }

  /** Failures that are no longer in the deque are outside the window, or before a lockout that outlasts it. */
  ghost predicate Forgotten(h: seq<int>, k: int, lock: Option<int>, last: int) {
    forall i | 0 <= i < k && i < |h| :: last - h[i] > WINDOW || (lock.Some? && h[i] + LOCKOUT <= lock.value)
  }

  // ---------------------------------------------------------------- one identifier

  /** What the two tables say about one identifier. */
  datatype Cell = Cell(attempts: seq<int>, lock: Option<int>)

  function CellOf(s: State, id: string): Cell {
    Cell(Attempts(s, id), Lockout(s, id))
  }

  function CellFailure(kept: seq<int>, lock: Option<int>, now: int): Cell {
    if |kept| + 1 >= MAX_ATTEMPTS then Cell([], Some(now + LOCKOUT)) else Cell(kept + [now], lock)
  }

  /** The throttle as one identifier sees it. */
  function CellLogin(c: Cell, now: int, authentic: bool): (Cell, Outcome) {
    if c.lock.Some? && c.lock.value > now then (c, Rejected)
    else if authentic then (Cell([], None), Succeeded)
    else (CellFailure(DropOld(c.attempts, now), c.lock, now), Failed)
  }

  /** A request touches its own identifier only, and treats it as its own tables say. */
  lemma LoginIsLocal(s: State, id: string, now: int, authentic: bool, other: string)
    ensures Login(s, id, now, authentic).1 == CellLogin(CellOf(s, id), now, authentic).1
    ensures CellOf(Login(s, id, now, authentic).0, id) == CellLogin(CellOf(s, id), now, authentic).0
    ensures other != id ==> CellOf(Login(s, id, now, authentic).0, other) == CellOf(s, other)
  {
    var p := Prune(s, id, now);
    assert Attempts(p, id) == DropOld(Attempts(s, id), now);
  }

  ghost predicate IsSuffix(d: seq<int>, h: seq<int>) {
    |d| <= |h| && d == h[|h| - |d|..]
  }

  ghost predicate Inv(c: Cell, h: seq<int>, last: int) {
    && Ascending(h)
    && (forall i | 0 <= i < |h| :: h[i] <= last)
    && |c.attempts| < MAX_ATTEMPTS && IsSuffix(c.attempts, h)
    && Forgotten(h, |h| - |c.attempts|, c.lock, last)
    && Spread(h)
    && LockoutIsLatestBurst(c.lock, h)
  }

  /** Pruning keeps a suffix: it drops only failures outside the window, and all of them. */
  lemma {:induction false} DropOldSuffix(d: seq<int>, now: int)
    ensures IsSuffix(DropOld(d, now), d)
    ensures forall i | 0 <= i < |d| - |DropOld(d, now)| :: now - d[i] > WINDOW
    ensures DropOld(d, now) != [] ==> now - DropOld(d, now)[0] <= WINDOW
  {
    if d != [] && now - d[0] > WINDOW {
      DropOldSuffix(d[1..], now);
      forall i | 0 <= i < |d| - |DropOld(d, now)| ensures now - d[i] > WINDOW {
        if i > 0 {
          assert d[i] == d[1..][i - 1];
        }
      }
    }
  }

  /** `kept` is the part of the history inside the window that ends now. */
  ghost predicate IsWindow(kept: seq<int>, h: seq<int>, now: int) {
    && |kept| < MAX_ATTEMPTS && IsSuffix(kept, h)
    && (forall i | 0 <= i < |h| - |kept| :: now - h[i] > WINDOW)
    && (forall i | |h| - |kept| <= i < |h| :: now - h[i] <= WINDOW)
  }

  lemma SuffixOfSuffix(kept: seq<int>, d: seq<int>, h: seq<int>)
    requires IsSuffix(kept, d) && IsSuffix(d, h)
    ensures IsSuffix(kept, h)
    ensures forall i | |h| - |d| <= i < |h| :: d[i - (|h| - |d|)] == h[i]
    ensures kept != [] ==> kept[0] == h[|h| - |kept|]
  {
  }

  /** After a check that is not refused, the deque holds exactly the failures inside the window. */
  lemma PrunedIsWindow(c: Cell, h: seq<int>, last: int, now: int)
    requires Inv(c, h, last) && last <= now && (c.lock.Some? ==> c.lock.value <= now)
    ensures IsWindow(DropOld(c.attempts, now), h, now)
  {
    var d := c.attempts;
    var kept := DropOld(d, now);
    DropOldSuffix(d, now);
    SuffixOfSuffix(kept, d, h);
    var k := |h| - |d|;
    forall i | 0 <= i < |h| - |kept| ensures now - h[i] > WINDOW {
      if i >= k {
        assert d[i - k] == h[i];
      }
    }
    forall i | |h| - |kept| <= i < |h| ensures now - h[i] <= WINDOW {
      assert h[|h| - |kept|] <= h[i];
    }
  }

  lemma BurstAppend(h: seq<int>, kept: seq<int>, now: int)
    requires IsWindow(kept, h, now)
    ensures forall j :: Burst(h + [now], j) <==> Burst(h, j) || (j == |h| && |kept| + 1 >= MAX_ATTEMPTS)
  {
    var h', n := h + [now], |h|;
    if n >= MAX_ATTEMPTS - 1 {
      var i := n - (MAX_ATTEMPTS - 1);
      assert h'[i] == h[i];
      assert now - h[i] <= WINDOW <==> i >= n - |kept|;
    }
  }

  lemma SpreadAppend(h: seq<int>, kept: seq<int>, now: int)
    requires IsWindow(kept, h, now) && Spread(h)
    ensures Spread(h + [now])
  {
    var h', n := h + [now], |h|;
    forall i | 0 <= i < |h'| - MAX_ATTEMPTS ensures h'[i + MAX_ATTEMPTS] - h'[i] > WINDOW {
      if i + MAX_ATTEMPTS == n {
        assert i < n - |kept|;
      }
    }
  }

  lemma LatestBurstAppend(c: Cell, h: seq<int>, kept: seq<int>, now: int)
    requires IsWindow(kept, h, now) && LockoutIsLatestBurst(c.lock, h)
    ensures LockoutIsLatestBurst(CellFailure(kept, c.lock, now).lock, h + [now])
  {
    BurstAppend(h, kept, now);
    var h', n := h + [now], |h|;
    if |kept| + 1 >= MAX_ATTEMPTS {
      assert Burst(h', n) && h'[n] == now;
      assert forall i | Burst(h', i) :: i <= n;
    } else if c.lock.Some? {
      var j :| Burst(h, j) && c.lock.value == h[j] + LOCKOUT && forall i | Burst(h, i) :: i <= j;
      assert Burst(h', j) && h'[j] == h[j];
      assert forall i | Burst(h', i) :: i <= j;
    }
  }

  lemma AscendingAppend(h: seq<int>, now: int)
    requires Ascending(h) && forall i | 0 <= i < |h| :: h[i] <= now
    ensures Ascending(h + [now]) && forall i | 0 <= i < |h + [now]| :: (h + [now])[i] <= now
  {
  }

  /** What the new deque forgets is outside the window, or behind a new lockout. */
  lemma ForgottenAppend(c: Cell, h: seq<int>, kept: seq<int>, now: int)
    requires IsWindow(kept, h, now) && forall i | 0 <= i < |h| :: h[i] <= now
    ensures var after := CellFailure(kept, c.lock, now);
            Forgotten(h + [now], |h| + 1 - |after.attempts|, after.lock, now)
    ensures IsSuffix(CellFailure(kept, c.lock, now).attempts, h + [now])
  {
    var h' := h + [now];
    if |kept| + 1 < MAX_ATTEMPTS {
      assert kept + [now] == h'[|h'| - |kept| - 1..];
    }
  }

  lemma FailureKeepsInv(c: Cell, h: seq<int>, last: int, now: int)
    requires Inv(c, h, last) && last <= now && (c.lock.Some? ==> c.lock.value <= now)
    ensures Inv(CellFailure(DropOld(c.attempts, now), c.lock, now), h + [now], now)
  {
    var kept := DropOld(c.attempts, now);
    PrunedIsWindow(c, h, last, now);
    AscendingAppend(h, now);
    SpreadAppend(h, kept, now);
    LatestBurstAppend(c, h, kept, now);
    ForgottenAppend(c, h, kept, now);
  }

  lemma {:induction false} RunKeepsInv(events: seq<Event>, id: string, last: int)
    requires TimeAdvances(events)
    requires forall i | 0 <= i < |events| :: events[i].now <= last
    ensures Inv(CellOf(Run(events), id), History(events, id), last)
    decreases |events|
  {
    if events != [] {
      var front, e := events[..|events| - 1], events[|events| - 1];
      RunKeepsInv(front, id, e.now);
      LoginIsLocal(Run(front), e.id, e.now, e.authentic, id);
      var c, h := CellOf(Run(front), id), History(front, id);
      if e.id == id && CellLogin(c, e.now, e.authentic).1 == Failed {
        FailureKeepsInv(c, h, e.now, e.now);
      }
      LaterKeepsInv(CellOf(Run(events), id), History(events, id), e.now, last);
    }
  }

  lemma LaterKeepsInv(c: Cell, h: seq<int>, last: int, later: int)
    requires Inv(c, h, last) && last <= later
    ensures Inv(c, h, later)
  {
  }

  // ---------------------------------------------------------------- main results

  /** How many of the failures fall in the closed interval of length WINDOW that starts at `start`. */
  function CountWithin(h: seq<int>, start: int): nat {
    if h == [] then 0 else (if start <= h[0] <= start + WINDOW then 1 else 0) + CountWithin(h[1..], start)
  }

  lemma {:induction false} CountAtMost(h: seq<int>, start: int)
    ensures CountWithin(h, start) <= |h|
  {
    if h != [] {
      CountAtMost(h[1..], start);
    }
  }

  lemma {:induction false} CountSplit(a: seq<int>, b: seq<int>, start: int)
    ensures CountWithin(a + b, start) == CountWithin(a, start) + CountWithin(b, start)
  {
    if a == [] {
      assert a + b == b;
    } else {
      assert (a + b)[1..] == a[1..] + b;
      CountSplit(a[1..], b, start);
    }
  }

  lemma {:induction false} CountNone(h: seq<int>, start: int)
    requires forall i | 0 <= i < |h| :: h[i] < start
    ensures CountWithin(h, start) == 0
  {
    if h != [] {
      CountNone(h[1..], start);
    }
  }

  lemma {:induction false} SpreadBoundsCount(h: seq<int>, start: int)
    requires Ascending(h) && Spread(h)
    ensures CountWithin(h, start) <= MAX_ATTEMPTS
    decreases |h|
  {
    var n := |h| - 1;
    if |h| <= MAX_ATTEMPTS {
      CountAtMost(h, start);
    } else if h[n] > start + WINDOW {
      assert h == h[..n] + [h[n]];
      CountSplit(h[..n], [h[n]], start);
      SpreadBoundsCount(h[..n], start);
    } else {
      var k := |h| - MAX_ATTEMPTS;
      assert h == h[..k] + h[k..];
      CountSplit(h[..k], h[k..], start);
      assert h[(k - 1) + MAX_ATTEMPTS] - h[k - 1] > WINDOW;
      CountNone(h[..k], start);
      CountAtMost(h[k..], start);
    }
  }

  /** At every moment of every run, no window holds more than MAX_ATTEMPTS failures since the last success. */
  lemma RateBound(events: seq<Event>, id: string, start: int)
    requires TimeAdvances(events)
    ensures CountWithin(History(events, id), start) <= MAX_ATTEMPTS
  {
    if events != [] {
      RunKeepsInv(events, id, events[|events| - 1].now);
      SpreadBoundsCount(History(events, id), start);
    }
  }

  ghost predicate RecentBurst(h: seq<int>, now: int) {
    exists j :: Burst(h, j) && now < h[j] + LOCKOUT
  }

  lemma LockedIffBurst(c: Cell, h: seq<int>, last: int, now: int)
    requires Inv(c, h, last)
    ensures c.lock.Some? && c.lock.value > now <==> RecentBurst(h, now)
  {
    var lock := c.lock;
    if lock.Some? {
      var j :| Burst(h, j) && lock.value == h[j] + LOCKOUT && forall i | Burst(h, i) :: i <= j;
      forall i | Burst(h, i) ensures h[i] <= h[j] {
        assert i <= j;
      }
    }
  }

  /**
   * The outcomes, said of the run alone: a request is refused exactly when some burst since the last
   * success is less than LOCKOUT old, and otherwise it succeeds exactly if the password is right.
   */
  lemma RefusedIffRecentBurst(events: seq<Event>, e: Event)
    requires TimeAdvances(events) && forall i | 0 <= i < |events| :: events[i].now <= e.now
    ensures var outcome := Login(Run(events), e.id, e.now, e.authentic).1;
            && (outcome == Rejected <==> RecentBurst(History(events, e.id), e.now))
            && (outcome == Succeeded <==> e.authentic && !RecentBurst(History(events, e.id), e.now))
            && (outcome == Failed <==> !e.authentic && !RecentBurst(History(events, e.id), e.now))
  {
    RunKeepsInv(events, e.id, e.now);
    LoginIsLocal(Run(events), e.id, e.now, e.authentic, e.id);
    LockedIffBurst(CellOf(Run(events), e.id), History(events, e.id), e.now, e.now);
  }

  /** The event at position k was a wrong password that was not refused. */
  ghost predicate FailedAt(events: seq<Event>, id: string, k: nat)
    requires k < |events|
  {
    events[k].id == id && !events[k].authentic && !RecentBurst(History(events[..k], id), events[k].now)
  }

  ghost predicate SucceededAt(events: seq<Event>, id: string, k: nat)
    requires k < |events|
  {
    events[k].id == id && events[k].authentic && !RecentBurst(History(events[..k], id), events[k].now)
  }

  /** The history grows by a wrong password, is emptied by a right one, and is left alone by everything else. */
  lemma HistoryStep(events: seq<Event>, id: string, k: nat)
    requires TimeAdvances(events) && k < |events|
    ensures History(events[..k + 1], id) ==
              if FailedAt(events, id, k) then History(events[..k], id) + [events[k].now]
              else if SucceededAt(events, id, k) then []
              else History(events[..k], id)
  {
    var now := events[..k + 1];
    assert now[..|now| - 1] == events[..k] && now[|now| - 1] == events[k];
    RefusedIffRecentBurst(events[..k], events[k]);
  }

  /** After a success nothing is remembered of the identifier. */
  lemma SuccessForgets(s: State, id: string, now: int)
    requires !Locked(s, id, now)
    ensures var after := Login(s, id, now, true).0; id !in after.failed && id !in after.lockouts
  {
  }

  /** The failures inside the window that ends now. */
  function Recent(h: seq<int>, now: int): seq<int> {
    if h == [] then [] else (if now - h[0] <= WINDOW then [h[0]] else []) + Recent(h[1..], now)
  }

  lemma {:induction false} RecentSuffix(h: seq<int>, now: int, k: nat)
    requires k <= |h|
    requires forall i | 0 <= i < k :: now - h[i] > WINDOW
    requires forall i | k <= i < |h| :: now - h[i] <= WINDOW
    ensures Recent(h, now) == h[k..]
  {
    if h != [] {
      RecentSuffix(h[1..], now, if k == 0 then 0 else k - 1);
      if k == 0 {
        assert [h[0]] + h[1..] == h;
      } else {
        assert h[1..][k - 1..] == h[k..];
      }
    }
  }

  /**
   * After an accepted check the deque is the window-filtered failure history, with no trace of the lockouts in
   * between.
   */
  lemma DequeIsRecentHistory(events: seq<Event>, id: string, now: int)
    requires TimeAdvances(events) && forall i | 0 <= i < |events| :: events[i].now <= now
    requires !Locked(Run(events), id, now)
    ensures Attempts(Prune(Run(events), id, now), id) == Recent(History(events, id), now)
  {
    RunKeepsInv(events, id, now);
    PrunedIsWindow(CellOf(Run(events), id), History(events, id), now, now);
    var d := Attempts(Prune(Run(events), id, now), id);
    RecentSuffix(History(events, id), now, |History(events, id)| - |d|);
  }

  function Only(events: seq<Event>, id: string): seq<Event> {
    if events == [] then []
    else
      var e := events[|events| - 1];
      Only(events[..|events| - 1], id) + if e.id == id then [e] else []
  }

  /** What happens to an identifier depends on its own requests alone. */
  lemma {:induction false} IdentifiersIndependent(events: seq<Event>, id: string)
    ensures CellOf(Run(events), id) == CellOf(Run(Only(events, id)), id)
    ensures History(events, id) == History(Only(events, id), id)
    decreases |events|
  {
    if events != [] {
      var front, e := events[..|events| - 1], events[|events| - 1];
      IdentifiersIndependent(front, id);
      LoginIsLocal(Run(front), e.id, e.now, e.authentic, id);
      LoginIsLocal(Run(Only(front, id)), e.id, e.now, e.authentic, id);
      if e.id == id {
        var own := Only(events, id);
        assert own[..|own| - 1] == Only(front, id) && own[|own| - 1] == e;
      } else {
        assert Only(events, id) == Only(front, id);
      }
    }
  }
}
