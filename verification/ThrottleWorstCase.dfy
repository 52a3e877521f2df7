/**
 * How many failures of one identifier can fall into one window when at most `n` of its requests are in flight.
 * Requests that arrived before the window are old, those that arrive in it hot. A lockout set by a hot failure
 * outlasts the window and lets no hot request pass; only an old request that fails with four failures before it
 * replaces the lockout by one that is over, and each of them can do that once.
 */
module ThrottleWorstCase {
  import opened Text
  import opened LoginThrottle
  import opened ThrottleInterleaving

  // ---------------------------------------------------------------- the maximum

  /** What one old request is worth while `i` old ones are in flight: four failures, and as many full deques as fit. */
  function Stage(n: nat, i: nat): nat
    requires i <= n
  {
    MAX_ATTEMPTS - 1 + MAX_ATTEMPTS * ((n - i) / MAX_ATTEMPTS)
  }

  function Gain(n: nat, i: nat): nat
    requires i <= n
  {
    if i == 0 then 0 else Gain(n, i - 1) + Stage(n, i)
  }

  /** All but one request are old; at the end four failures and then all `n` at once. */
  function Worst(n: nat): nat {
    if n == 0 then 0 else Gain(n, n - 1) + MAX_ATTEMPTS - 1 + n
  }

  lemma {:induction false} GainSpan(n: nat, i: nat, o: nat)
    requires 1 <= o <= i <= n
    ensures Gain(n, i) >= Gain(n, i - o) + Stage(n, i - o + 1) + (MAX_ATTEMPTS - 1) * (o - 1)
    decreases o
  {
    if o > 1 {
      GainSpan(n, i - 1, o - 1);
    }
  }

  lemma {:induction false} GainMonotone(n: nat, i: nat, j: nat)
    requires i <= j <= n
    ensures Gain(n, i) <= Gain(n, j)
    decreases j
  {
    if i < j {
      GainMonotone(n, i, j - 1);
    }
  }

  lemma GainAtLeast(n: nat, i: nat)
    requires 1 <= i <= n
    ensures Gain(n, i) >= n - 1
  {
    GainMonotone(n, 1, i);
  }

  lemma WorstAtLeast(n: nat)
    ensures Worst(n) >= n
  {
  }

  /** 0 / MAX_ATTEMPTS + 1 / MAX_ATTEMPTS + ... */
  function Quotients(n: nat): nat {
    if n == 0 then 0 else Quotients(n - 1) + (n - 1) / MAX_ATTEMPTS
  }

  lemma {:induction false} GainSum(n: nat, i: nat)
    requires i < n
    ensures Gain(n, i) + MAX_ATTEMPTS * Quotients(n - i) == (MAX_ATTEMPTS - 1) * i + MAX_ATTEMPTS * Quotients(n)
  {
    if i > 0 {
      GainSum(n, i - 1);
    }
  }

  lemma QuotientStep(n: nat, q: int, r: int, q': int, r': int)
    requires n > 0 && q == (n - 1) / MAX_ATTEMPTS && r == (n - 1) % MAX_ATTEMPTS
    requires q' == n / MAX_ATTEMPTS && r' == n % MAX_ATTEMPTS
    ensures (q' == q && r' == r + 1) || (q' == q + 1 && r == MAX_ATTEMPTS - 1 && r' == 0)
  {
  }

  function Closed(q: int, r: int): int {
    MAX_ATTEMPTS * (q * (q - 1)) + 2 * (r * q)
  }

  lemma ClosedStep(q: int, r: int)
    ensures Closed(q, r + 1) == Closed(q, r) + 2 * q
  {
    assert (r + 1) * q == r * q + q;
  }

  lemma ClosedCarry(q: int)
    ensures Closed(q + 1, 0) == Closed(q, MAX_ATTEMPTS - 1) + 2 * q
  {
    assert (q + 1) * q == q * (q - 1) + 2 * q;
    assert 0 * (q + 1) == 0;
  }

  lemma {:induction false} QuotientsAre(n: nat)
    ensures 2 * Quotients(n) == Closed(n / MAX_ATTEMPTS, n % MAX_ATTEMPTS)
  {
    if n > 0 {
      var q, r := (n - 1) / MAX_ATTEMPTS, (n - 1) % MAX_ATTEMPTS;
      QuotientsAre(n - 1);
      QuotientStep(n, q, r, n / MAX_ATTEMPTS, n % MAX_ATTEMPTS);
      ClosedStep(q, r);
      ClosedCarry(q);
    }
  }

  lemma WorstSum(n: nat)
    ensures Worst(n) == MAX_ATTEMPTS * n + MAX_ATTEMPTS * Quotients(n)
  {
    if n > 0 {
      GainSum(n, n - 1);
      assert Quotients(n - (n - 1)) == 0;
    }
  }

  lemma {:induction false} QuotientsVanish(n: nat)
    ensures Quotients(n) == 0 <==> n <= MAX_ATTEMPTS
  {
    if n > 0 {
      QuotientsVanish(n - 1);
    }
  }

  /**
   * The maximum is MAX_ATTEMPTS for each request in flight, up to MAX_ATTEMPTS of them, and more than that
   * beyond, where it grows with the square of their number.
   */
  lemma WorstIs(n: nat)
    ensures Worst(n) >= MAX_ATTEMPTS * n
    ensures Worst(n) == MAX_ATTEMPTS * n <==> n <= MAX_ATTEMPTS
    ensures 2 * Worst(n) == 2 * MAX_ATTEMPTS * n + MAX_ATTEMPTS * Closed(n / MAX_ATTEMPTS, n % MAX_ATTEMPTS)
  {
    WorstSum(n);
    QuotientsAre(n);
    QuotientsVanish(n);
  }

  // ---------------------------------------------------------------- the accounts, without the tables

  /**
   * Old and hot requests in flight, hot ones that passed their check, failures in the deque and hot ones among
   * them, whether a lockout outlasts the window, and the hot failures registered since the last success.
   */
  datatype Account = Account(aged: nat, hot: nat, cleared: nat, deque: nat, hotDeque: nat, closed: bool, count: nat)

  predicate Quiet(s: Account) {
    s.count == 0 && s.hot == 0
  }

  /** What can still come while checks may pass. */
  predicate OpenFits(n: nat, s: Account) {
    s.aged < n && s.count + Gain(n, s.aged) + (MAX_ATTEMPTS - 1) + n <= Worst(n) + s.hotDeque
  }

  /** Opening after `x` more hot and `o` old failures, the last one old, leaves room for what can come then. */
  predicate OpeningFits(n: nat, s: Account, x: nat, o: nat)
    requires s.aged <= n
  {
    o <= s.aged && (s.deque + x + o) % MAX_ATTEMPTS == 0 ==>
      s.count + x + Gain(n, s.aged - o) + (MAX_ATTEMPTS - 1) + n <= Worst(n)
  }

  /** What can still come while hot checks are refused. */
  ghost predicate ClosedFits(n: nat, s: Account) {
    && s.aged < n && s.count + s.cleared <= Worst(n)
    && (s.aged > 0 ==> s.count + s.cleared + n <= Worst(n))
    && forall x: nat, o: nat | x <= s.cleared && 1 <= o :: OpeningFits(n, s, x, o)
  }

  ghost predicate Fits(n: nat, s: Account) {
    if s.closed then ClosedFits(n, s) else OpenFits(n, s)
  }

  /** While hot requests may still arrive. */
  ghost predicate Early(n: nat, s: Account) {
    Quiet(s) || Fits(n, s)
  }

  /** Once none can arrive any more. */
  predicate Late(n: nat, s: Account) {
    s.count + s.hot <= Worst(n) || (s.closed && s.aged == 0 && s.count + s.cleared <= Worst(n))
  }

  /** What holds of every account. */
  predicate Proper(n: nat, s: Account) {
    s.aged + s.hot <= n && s.cleared <= s.hot && s.hotDeque <= s.deque < MAX_ATTEMPTS
  }

  lemma EarlyBounds(n: nat, s: Account)
    requires Proper(n, s) && Early(n, s)
    ensures s.count <= Worst(n) && Late(n, s)
  {
  }

  /** The first hot arrival. */
  lemma QuietFits(n: nat, s: Account)
    requires Quiet(s) && s.aged < n && s.cleared == 0
    ensures Fits(n, s)
  {
    GainMonotone(n, s.aged, n - 1);
    forall x: nat, o: nat | x <= s.cleared && 1 <= o ensures OpeningFits(n, s, x, o) {
      if o <= s.aged {
        GainMonotone(n, s.aged - o, n - 1);
      }
    }
  }

  /** A request leaves without an outcome. */
  lemma FewerFit(n: nat, s: Account, t: Account)
    requires Fits(n, s) && t.aged <= s.aged && t.cleared <= s.cleared
    requires t.deque == s.deque && t.hotDeque == s.hotDeque && t.closed == s.closed && t.count == s.count
    ensures Fits(n, t)
  {
    GainMonotone(n, t.aged, s.aged);
    if s.closed {
      forall x: nat, o: nat | x <= t.cleared && 1 <= o ensures OpeningFits(n, t, x, o) {
        assert OpeningFits(n, s, x, o);
        if o <= t.aged {
          GainMonotone(n, t.aged - o, s.aged - o);
        }
      }
    }
  }

  lemma MultipleBelow(m: nat, bound: nat)
    requires m % MAX_ATTEMPTS == 0 && m <= bound
    ensures m <= MAX_ATTEMPTS * (bound / MAX_ATTEMPTS)
  {
  }

  /** The hot failure that fills the deque closes the window. */
  lemma HotCloses(n: nat, s: Account, t: Account)
    requires !s.closed && OpenFits(n, s) && s.hotDeque <= MAX_ATTEMPTS - 1
    requires t.closed && t.deque == 0 && t.count == s.count + 1 && t.aged == s.aged && t.cleared + 1 + s.aged <= n
    ensures ClosedFits(n, t)
  {
    if t.aged > 0 {
      GainAtLeast(n, t.aged);
    }
    forall x: nat, o: nat | x <= t.cleared && 1 <= o ensures OpeningFits(n, t, x, o) {
      if o <= t.aged && (x + o) % MAX_ATTEMPTS == 0 {
        GainSpan(n, t.aged, o);
        MultipleBelow(x + o, n - (t.aged - o + 1));
      }
    }
  }

  /** An old failure that fills the deque may close the window too. */
  lemma OldCloses(n: nat, s: Account, t: Account)
    requires !s.closed && OpenFits(n, s) && s.hotDeque <= MAX_ATTEMPTS - 1 && s.aged > 0
    requires t.closed && t.deque == 0 && t.count == s.count && t.aged == s.aged - 1 && t.cleared + s.aged <= n
    ensures ClosedFits(n, t)
  {
    GainAtLeast(n, s.aged);
    forall x: nat, o: nat | x <= t.cleared && 1 <= o ensures OpeningFits(n, t, x, o) {
      if o <= t.aged && (x + o) % MAX_ATTEMPTS == 0 {
        GainSpan(n, s.aged, o + 1);
        MultipleBelow(x + o, n - (t.aged - o + 1));
      }
    }
  }

  /** A hot failure while the window is closed. */
  lemma HotStaysClosed(n: nat, s: Account, t: Account)
    requires s.closed && ClosedFits(n, s) && s.cleared > 0
    requires t.closed && t.aged == s.aged && t.cleared == s.cleared - 1 && t.count == s.count + 1
    requires t.deque == (s.deque + 1) % MAX_ATTEMPTS
    ensures ClosedFits(n, t)
  {
    forall x: nat, o: nat | x <= t.cleared && 1 <= o ensures OpeningFits(n, t, x, o) {
      assert OpeningFits(n, s, x + 1, o);
    }
  }

  /** An old failure while the window is closed. */
  lemma OldStaysClosed(n: nat, s: Account, t: Account)
    requires s.closed && ClosedFits(n, s) && s.aged > 0
    requires t.closed && t.aged == s.aged - 1 && t.cleared == s.cleared && t.count == s.count
    requires t.deque == (s.deque + 1) % MAX_ATTEMPTS
    ensures ClosedFits(n, t)
  {
    forall x: nat, o: nat | x <= t.cleared && 1 <= o ensures OpeningFits(n, t, x, o) {
      assert OpeningFits(n, s, x, o + 1);
    }
  }

  /** An old failure opens the window again. */
  lemma OldOpens(n: nat, s: Account, t: Account)
    requires s.closed && ClosedFits(n, s) && s.aged > 0 && s.deque == MAX_ATTEMPTS - 1
    requires !t.closed && t.aged == s.aged - 1 && t.count == s.count
    ensures OpenFits(n, t)
  {
    assert OpeningFits(n, s, 0, 1);
  }

  /** The account after a registered failure: hot, old, or later than the window. */
  predicate AfterHot(s: Account, t: Account) {
    && s.hot > 0 && s.cleared > 0 && t.aged == s.aged && t.hot == s.hot - 1 && t.cleared == s.cleared - 1
    && t.count == s.count + 1 && t.deque == (s.deque + 1) % MAX_ATTEMPTS
    && (if s.deque + 1 < MAX_ATTEMPTS then t.hotDeque == s.hotDeque + 1 && t.closed == s.closed else t.closed)
  }

  predicate AfterOld(s: Account, t: Account) {
    && s.aged > 0 && t.aged == s.aged - 1 && t.hot == s.hot && t.cleared == s.cleared
    && t.count == s.count && t.deque == (s.deque + 1) % MAX_ATTEMPTS
    && (s.deque + 1 < MAX_ATTEMPTS ==> t.hotDeque == s.hotDeque && t.closed == s.closed)
  }

  lemma HotFailureFits(n: nat, s: Account, t: Account)
    requires Proper(n, s) && Proper(n, t) && Fits(n, s) && AfterHot(s, t)
    ensures Fits(n, t)
  {
    if s.closed {
      HotStaysClosed(n, s, t);
    } else if s.deque + 1 == MAX_ATTEMPTS {
      HotCloses(n, s, t);
    }
  }

  lemma OldFailureFits(n: nat, s: Account, t: Account)
    requires Proper(n, s) && Proper(n, t) && Fits(n, s) && AfterOld(s, t)
    ensures Fits(n, t)
  {
    if s.closed && t.closed {
      OldStaysClosed(n, s, t);
    } else if s.closed {
      OldOpens(n, s, t);
    } else if t.closed {
      OldCloses(n, s, t);
    } else {
      GainSpan(n, s.aged, 1);
    }
  }

  // ---------------------------------------------------------------- the accounts of a run

  predicate IsHot(now: int, s: int) {
    s <= now <= s + WINDOW
  }

  function Aged(w: World, id: string, s: int): set<nat> {
    set r | r in Flying(w, id) && w.flight[r].now < s
  }

  function Hot(w: World, id: string, s: int): set<nat> {
    set r | r in Flying(w, id) && IsHot(w.flight[r].now, s)
  }

  function Cleared(w: World, id: string, s: int): set<nat> {
    set r | r in Hot(w, id, s) && w.flight[r].Checked?
  }

  predicate Closes(lock: Option<int>, s: int) {
    lock.Some? && lock.value > s + WINDOW
  }

  /** The account of a world and a failure history, for the window that starts at `s`. */
  function Sum(w: World, id: string, s: int, h: seq<int>): Account {
    var c := CellOf(w.state, id);
    Account(|Aged(w, id, s)|, |Hot(w, id, s)|, |Cleared(w, id, s)|, |c.attempts|, CountWithin(c.attempts, s),
            Closes(c.lock, s), CountWithin(h, s))
  }

  ghost predicate Phase(time: int, s: int, n: nat, a: Account) {
    if time < s then Quiet(a) else if time <= s + WINDOW then Early(n, a) else Late(n, a)
  }

  ghost predicate Regular(w: World, id: string, n: nat) {
    && |Flying(w, id)| <= n && |Attempts(w.state, id)| < MAX_ATTEMPTS
    && forall r | r in Flying(w, id) :: w.flight[r].now <= w.time
  }

  ghost predicate Bounded(w: World, id: string, s: int, n: nat, h: seq<int>) {
    Regular(w, id, n) && Phase(w.time, s, n, Sum(w, id, s, h))
  }

  lemma SubsetSize(a: set<nat>, b: set<nat>)
    requires a <= b
    ensures |a| <= |b|
  {
    assert b == a + (b - a);
  }

  lemma SumIsProper(w: World, id: string, s: int, n: nat, h: seq<int>)
    requires Regular(w, id, n)
    ensures Proper(n, Sum(w, id, s, h))
  {
    var aged, hot := Aged(w, id, s), Hot(w, id, s);
    SubsetSize(aged + hot, Flying(w, id));
    assert |aged + hot| == |aged| + |hot|;
    SubsetSize(Cleared(w, id, s), hot);
    CountAtMost(Attempts(w.state, id), s);
  }

  lemma Without(a: set<nat>, r: nat)
    ensures |a - {r}| == |a| - if r in a then 1 else 0
  {
    if r !in a {
      assert a - {r} == a;
    }
  }

  lemma GoneSets(w: World, next: World, r: nat, id: string, s: int)
    requires r in Flying(w, id) && next.flight == w.flight - {r}
    ensures Flying(next, id) == Flying(w, id) - {r}
    ensures Aged(next, id, s) == Aged(w, id, s) - {r} && Hot(next, id, s) == Hot(w, id, s) - {r}
    ensures Cleared(next, id, s) == Cleared(w, id, s) - {r}
  {
  }

  /** A request of the identifier ends. */
  lemma Gone(w: World, next: World, r: nat, id: string, s: int)
    requires r in Flying(w, id) && next.flight == w.flight - {r}
    ensures var now := w.flight[r].now;
            && |Aged(next, id, s)| == |Aged(w, id, s)| - (if now < s then 1 else 0)
            && |Hot(next, id, s)| == |Hot(w, id, s)| - (if IsHot(now, s) then 1 else 0)
            && |Cleared(next, id, s)| ==
                 |Cleared(w, id, s)| - (if IsHot(now, s) && w.flight[r].Checked? then 1 else 0)
    ensures Flying(next, id) == Flying(w, id) - {r} && |Flying(next, id)| < |Flying(w, id)|
    ensures forall q | q in Flying(next, id) :: next.flight[q] == w.flight[q]
  {
    GoneSets(w, next, r, id, s);
    Without(Flying(w, id), r);
    Without(Aged(w, id, s), r);
    Without(Hot(w, id, s), r);
    Without(Cleared(w, id, s), r);
  }

  /** A request of the identifier passes its check. */
  lemma Passed(w: World, next: World, r: nat, id: string, s: int, at: nat)
    requires r in Flying(w, id) && w.flight[r].Arrived?
    requires next.flight == w.flight[r := Checked(id, w.flight[r].now, at)]
    ensures |Aged(next, id, s)| == |Aged(w, id, s)| && |Hot(next, id, s)| == |Hot(w, id, s)|
    ensures |Cleared(next, id, s)| == |Cleared(w, id, s)| + (if IsHot(w.flight[r].now, s) then 1 else 0)
    ensures Flying(next, id) == Flying(w, id)
    ensures forall q | q in Flying(next, id) :: next.flight[q].now == w.flight[q].now
  {
    assert Flying(next, id) == Flying(w, id);
    assert Aged(next, id, s) == Aged(w, id, s) && Hot(next, id, s) == Hot(w, id, s);
    assert r !in Cleared(w, id, s);
    assert Cleared(next, id, s) == Cleared(w, id, s) + if IsHot(w.flight[r].now, s) then {r} else {};
  }

  lemma CameSets(w: World, next: World, r: nat, id: string, s: int)
    requires r !in w.flight && next.flight == w.flight[r := Arrived(id, w.time)]
    ensures Flying(next, id) == Flying(w, id) + {r}
    ensures Aged(next, id, s) == Aged(w, id, s) + if w.time < s then {r} else {}
    ensures Hot(next, id, s) == Hot(w, id, s) + if IsHot(w.time, s) then {r} else {}
    ensures Cleared(next, id, s) == Cleared(w, id, s)
  {
  }

  /** A request of the identifier arrives. */
  lemma Came(w: World, next: World, r: nat, id: string, s: int)
    requires r !in w.flight && next.flight == w.flight[r := Arrived(id, w.time)]
    ensures |Aged(next, id, s)| == |Aged(w, id, s)| + (if w.time < s then 1 else 0)
    ensures |Hot(next, id, s)| == |Hot(w, id, s)| + (if IsHot(w.time, s) then 1 else 0)
    ensures |Cleared(next, id, s)| == |Cleared(w, id, s)|
    ensures Flying(next, id) == Flying(w, id) + {r}
    ensures forall q | q in Flying(next, id) :: q == r || next.flight[q] == w.flight[q]
  {
    CameSets(w, next, r, id, s);
    assert r !in Flying(w, id) && r !in Aged(w, id, s) && r !in Hot(w, id, s);
  }

  /** A check that reads no later time than the window forgets no hot failure. */
  lemma {:induction false} DropKeepsHot(d: seq<int>, now: int, s: int)
    requires now <= s + WINDOW
    ensures CountWithin(DropOld(d, now), s) == CountWithin(d, s)
  {
    if d != [] && now - d[0] > WINDOW {
      DropKeepsHot(d[1..], now, s);
    }
  }

  /** The account changes by one request that ends without a failure, and nothing else. */
  predicate OneFewer(a: Account, b: Account) {
    && b.aged <= a.aged && b.hot <= a.hot && b.cleared <= a.cleared
    && b.deque == a.deque && b.hotDeque == a.hotDeque && b.closed == a.closed && b.count == a.count
  }

  lemma FewerKeepsPhase(time: int, s: int, n: nat, a: Account, b: Account)
    requires Phase(time, s, n, a) && OneFewer(a, b)
    ensures Phase(time, s, n, b)
  {
    if s <= time <= s + WINDOW && Fits(n, a) {
      FewerFit(n, a, b);
    }
  }

  lemma LeaveKeepsBounded(w: World, next: World, r: nat, id: string, s: int, n: nat, h: seq<int>)
    requires Bounded(w, id, s, n, h) && r in Flying(w, id)
    requires next.flight == w.flight - {r} && next.state == w.state && next.time == w.time
    ensures Bounded(next, id, s, n, h)
  {
    Gone(w, next, r, id, s);
    FewerKeepsPhase(w.time, s, n, Sum(w, id, s, h), Sum(next, id, s, h));
  }

  /** What a check that is not refused does to the account. */
  predicate AfterCheck(a: Account, b: Account, hot: bool) {
    && b.aged == a.aged && b.hot == a.hot && b.cleared == a.cleared + (if hot then 1 else 0)
    && b.closed == a.closed && b.count == a.count
  }

  lemma CheckKeepsPhase(time: int, s: int, n: nat, a: Account, b: Account, now: int)
    requires Phase(time, s, n, a) && AfterCheck(a, b, IsHot(now, s)) && now <= time
    requires a.closed ==> now > s + WINDOW
    requires now <= s + WINDOW ==> b.hotDeque == a.hotDeque
    ensures Phase(time, s, n, b)
  {
  }

  lemma CheckKeepsBounded(w: World, r: nat, id: string, s: int, n: nat, h: seq<int>)
    requires Bounded(w, id, s, n, h) && Enabled(w, Check(r)) && w.flight[r].id == id
    ensures Bounded(Take(w, Check(r)), id, s, n, h)
  {
    var next, now := Take(w, Check(r)), w.flight[r].now;
    assert r in Flying(w, id);
    if Locked(w.state, id, now) {
      LeaveKeepsBounded(w, next, r, id, s, n, h);
    } else {
      var d := Attempts(w.state, id);
      assert CellOf(next.state, id) == Cell(DropOld(d, now), Lockout(w.state, id));
      DropOldShortens(d, now);
      Passed(w, next, r, id, s, w.clock);
      if now <= s + WINDOW {
        DropKeepsHot(d, now, s);
      }
      CheckKeepsPhase(w.time, s, n, Sum(w, id, s, h), Sum(next, id, s, h), now);
    }
  }

  /** What an arrival does to the account. */
  predicate AfterArrival(a: Account, b: Account, time: int, s: int) {
    b == a.(aged := a.aged + (if time < s then 1 else 0), hot := a.hot + (if IsHot(time, s) then 1 else 0))
  }

  lemma ArrivalKeepsPhase(time: int, s: int, n: nat, a: Account, b: Account)
    requires Proper(n, a) && Proper(n, b) && Phase(time, s, n, a) && AfterArrival(a, b, time, s)
    ensures Phase(time, s, n, b)
  {
    if IsHot(time, s) && Quiet(a) {
      QuietFits(n, a);
    }
    if IsHot(time, s) {
      FewerFit(n, a, b);
    }
  }

  lemma ArrivalKeepsBounded(w: World, r: nat, id: string, s: int, n: nat, h: seq<int>)
    requires Bounded(w, id, s, n, h) && Enabled(w, Arrive(r, id))
    requires |Flying(Take(w, Arrive(r, id)), id)| <= n
    ensures Bounded(Take(w, Arrive(r, id)), id, s, n, h)
  {
    var next := Take(w, Arrive(r, id));
    Came(w, next, r, id, s);
    SumIsProper(w, id, s, n, h);
    assert Regular(next, id, n);
    SumIsProper(next, id, s, n, h);
    ArrivalKeepsPhase(w.time, s, n, Sum(w, id, s, h), Sum(next, id, s, h));
  }

  lemma CountAppend(h: seq<int>, now: int, s: int)
    ensures CountWithin(h + [now], s) == CountWithin(h, s) + if IsHot(now, s) then 1 else 0
  {
    CountSplit(h, [now], s);
    assert [now][1..] == [];
  }

  /** A failure registered by a request later than the window. */
  predicate AfterLater(a: Account, b: Account) {
    b.aged == a.aged && b.hot == a.hot && b.cleared == a.cleared && b.count == a.count && (a.closed ==> b.closed)
  }

  lemma FailureKeepsPhase(time: int, s: int, n: nat, a: Account, b: Account, now: int)
    requires Proper(n, a) && Proper(n, b) && Phase(time, s, n, a) && now <= time
    requires if now < s then AfterOld(a, b) else if IsHot(now, s) then AfterHot(a, b) else AfterLater(a, b)
    ensures Phase(time, s, n, b)
  {
    if time <= s + WINDOW && Fits(n, a) {
      if now < s {
        OldFailureFits(n, a, b);
      } else {
        HotFailureFits(n, a, b);
      }
    }
  }

  lemma FailureAccount(w: World, r: nat, id: string, s: int, n: nat, h: seq<int>)
    requires Regular(w, id, n) && Enabled(w, Finish(r, false)) && w.flight[r].id == id
    ensures var next, now := Take(w, Finish(r, false)), w.flight[r].now;
            var a, b := Sum(w, id, s, h), Sum(next, id, s, h + [now]);
            && Regular(next, id, n)
            && (if now < s then AfterOld(a, b) else if IsHot(now, s) then AfterHot(a, b) else AfterLater(a, b))
  {
    var next, now := Take(w, Finish(r, false)), w.flight[r].now;
    var d := Attempts(w.state, id);
    assert r in Flying(w, id);
    Gone(w, next, r, id, s);
    CountAppend(h, now, s);
    CountAppend(d, now, s);
    assert CellOf(next.state, id) == CellFailure(d, Lockout(w.state, id), now);
    SumIsProper(w, id, s, n, h);
    assert r in Hot(w, id, s) <==> IsHot(now, s);
    assert r in Cleared(w, id, s) <==> IsHot(now, s);
    assert r in Aged(w, id, s) <==> now < s;
  }

  /** A success starts the history anew. */
  lemma SuccessKeepsPhase(time: int, s: int, n: nat, a: Account, b: Account)
    requires Proper(n, a) && Proper(n, b) && Phase(time, s, n, a)
    requires b.aged <= a.aged && b.hot <= a.hot && b.count == 0 && b.hotDeque == 0 && !b.closed
    ensures Phase(time, s, n, b)
  {
    WorstAtLeast(n);
    if s <= time <= s + WINDOW && Fits(n, a) {
      GainMonotone(n, b.aged, n - 1);
    }
  }

  lemma FinishKeepsBounded(w: World, r: nat, authentic: bool, id: string, s: int, n: nat, h: seq<int>)
    requires Bounded(w, id, s, n, h) && Enabled(w, Finish(r, authentic)) && w.flight[r].id == id
    ensures Bounded(Take(w, Finish(r, authentic)), id, s, n, Record(w, Finish(r, authentic), id, h))
  {
    var next := Take(w, Finish(r, authentic));
    var after := Record(w, Finish(r, authentic), id, h);
    assert r in Flying(w, id);
    SumIsProper(w, id, s, n, h);
    if authentic {
      Gone(w, next, r, id, s);
      assert CellOf(next.state, id) == Cell([], None);
      assert Regular(next, id, n);
      SumIsProper(next, id, s, n, after);
      SuccessKeepsPhase(w.time, s, n, Sum(w, id, s, h), Sum(next, id, s, after));
    } else {
      FailureAccount(w, r, id, s, n, h);
      SumIsProper(next, id, s, n, after);
      FailureKeepsPhase(w.time, s, n, Sum(w, id, s, h), Sum(next, id, s, after), w.flight[r].now);
    }
  }

  lemma TimeKeepsPhase(time: int, later: int, s: int, n: nat, a: Account)
    requires Proper(n, a) && Phase(time, s, n, a) && time <= later
    ensures Phase(later, s, n, a)
  {
    WorstAtLeast(n);
    if time <= s + WINDOW {
      EarlyBounds(n, a);
    }
  }

  lemma OtherKeepsBounded(w: World, step: Step, id: string, s: int, n: nat, h: seq<int>)
    requires Bounded(w, id, s, n, h) && Enabled(w, step) && !Concerns(w, step, id)
    ensures Bounded(Take(w, step), id, s, n, h)
  {
    var next := Take(w, step);
    OtherStepKeeps(w, step, id);
    assert Aged(next, id, s) == Aged(w, id, s) && Hot(next, id, s) == Hot(w, id, s);
    assert Cleared(next, id, s) == Cleared(w, id, s);
    SumIsProper(w, id, s, n, h);
    TimeKeepsPhase(w.time, next.time, s, n, Sum(w, id, s, h));
  }

  lemma StepKeepsBounded(w: World, step: Step, id: string, s: int, n: nat, h: seq<int>)
    requires Bounded(w, id, s, n, h) && Enabled(w, step) && |Flying(Take(w, step), id)| <= n
    ensures Bounded(Take(w, step), id, s, n, Record(w, step, id, h))
  {
    if !Concerns(w, step, id) {
      OtherStepKeeps(w, step, id);
      OtherKeepsBounded(w, step, id, s, n, h);
    } else {
      match step {
        case Arrive(r, _) => ArrivalKeepsBounded(w, r, id, s, n, h);
        case Check(r) => CheckKeepsBounded(w, r, id, s, n, h);
        case Finish(r, authentic) => FinishKeepsBounded(w, r, authentic, id, s, n, h);
        case Leave(r) =>
          assert r in Flying(w, id);
          LeaveKeepsBounded(w, Take(w, step), r, id, s, n, h);
      }
    }
  }

  lemma {:induction false} RunKeepsBounded(w: World, steps: seq<Step>, end: World, id: string, s: int, n: nat,
                                           h: seq<int>)
    requires Bounded(w, id, s, n, h) && IsRun(w, steps, end) && AtMost(w, steps, id, n)
    ensures Bounded(end, id, s, n, Registered(w, steps, id, h))
    decreases |steps|
  {
    if steps != [] {
      StepKeepsBounded(w, steps[0], id, s, n, h);
      RunKeepsBounded(Take(w, steps[0]), steps[1..], end, id, s, n, Record(w, steps[0], id, h));
    }
  }

  lemma StartIsBounded(time: int, id: string, s: int, n: nat)
    ensures Bounded(Start(time), id, s, n, [])
  {
    assert Flying(Start(time), id) == {} && Aged(Start(time), id, s) == {} && Hot(Start(time), id, s) == {};
    assert Cleared(Start(time), id, s) == {};
  }

  /** With at most `n` requests of the identifier in flight no window ever holds more than `Worst(n)` failures. */
  lemma NeverWorse(time: int, steps: seq<Step>, end: World, id: string, n: nat, start: int)
    requires IsRun(Start(time), steps, end) && AtMost(Start(time), steps, id, n)
    ensures CountWithin(FailuresOf(time, steps, id), start) <= Worst(n)
  {
    var h := FailuresOf(time, steps, id);
    StartIsBounded(time, id, start, n);
    RunKeepsBounded(Start(time), steps, end, id, start, n, []);
    SumIsProper(end, id, start, n, h);
    var a := Sum(end, id, start, h);
    if start <= end.time <= start + WINDOW {
      EarlyBounds(n, a);
    }
  }

  // ---------------------------------------------------------------- composing runs

  /** How many requests of the identifier may be in flight, and how many of them between their locked sections. */
  datatype Limits = Limits(flying: nat, between: nat)

  predicate Within(w: World, id: string, lim: Limits) {
    |Flying(w, id)| <= lim.flying && |BetweenSections(w, id)| <= lim.between
  }

  /** The worlds and failure histories before, between and after some steps. */
  datatype Trace = Trace(worlds: seq<World>, histories: seq<seq<int>>)

  ghost predicate Moves(w: World, step: Step, next: World, id: string, h: seq<int>, after: seq<int>) {
    Enabled(w, step) && next == Take(w, step) && after == Record(w, step, id, h)
  }

  ghost predicate Traces(t: Trace, steps: seq<Step>, id: string, lim: Limits) {
    && |t.worlds| == |t.histories| == |steps| + 1
    && (forall k | 0 <= k < |t.worlds| :: Within(t.worlds[k], id, lim))
    && (forall k {:trigger steps[k]} | 0 <= k < |steps| ::
          Moves(t.worlds[k], steps[k], t.worlds[k + 1], id, t.histories[k], t.histories[k + 1]))
  }

  ghost predicate Connects(t: Trace, w: World, end: World, h: seq<int>, after: seq<int>) {
    && |t.worlds| == |t.histories| > 0
    && t.worlds[0] == w && t.worlds[|t.worlds| - 1] == end
    && t.histories[0] == h && t.histories[|t.histories| - 1] == after
  }

  /** The steps lead from `w` to `end` within the limits, and turn the history `h` into `after`. */
  ghost predicate Reaches(w: World, steps: seq<Step>, end: World, id: string, lim: Limits, h: seq<int>,
                          after: seq<int>)
  {
    exists t :: Traces(t, steps, id, lim) && Connects(t, w, end, h, after)
  }

  lemma TraceTail(t: Trace, steps: seq<Step>, id: string, lim: Limits)
    requires Traces(t, steps, id, lim) && steps != []
    ensures Traces(Trace(t.worlds[1..], t.histories[1..]), steps[1..], id, lim)
    ensures Moves(t.worlds[0], steps[0], t.worlds[1], id, t.histories[0], t.histories[1])
  {
    var u, rest := Trace(t.worlds[1..], t.histories[1..]), steps[1..];
    forall k {:trigger rest[k]} | 0 <= k < |rest|
      ensures Moves(u.worlds[k], rest[k], u.worlds[k + 1], id, u.histories[k], u.histories[k + 1])
    {
      assert rest[k] == steps[k + 1];
    }
  }

  /** What it means for the run as a whole. */
  lemma {:induction false} TraceMeans(t: Trace, steps: seq<Step>, id: string, lim: Limits)
    requires Traces(t, steps, id, lim)
    ensures IsRun(t.worlds[0], steps, t.worlds[|steps|])
    ensures Registered(t.worlds[0], steps, id, t.histories[0]) == t.histories[|steps|]
    ensures AtMost(t.worlds[0], steps, id, lim.flying) && AtMostBetween(t.worlds[0], steps, id, lim.between)
    decreases |steps|
  {
    assert Within(t.worlds[0], id, lim);
    if steps != [] {
      TraceTail(t, steps, id, lim);
      TraceMeans(Trace(t.worlds[1..], t.histories[1..]), steps[1..], id, lim);
    }
  }

  lemma ReachesMeans(w: World, steps: seq<Step>, end: World, id: string, lim: Limits, h: seq<int>, after: seq<int>)
    requires Reaches(w, steps, end, id, lim, h, after)
    ensures IsRun(w, steps, end) && Registered(w, steps, id, h) == after
    ensures AtMost(w, steps, id, lim.flying) && AtMostBetween(w, steps, id, lim.between)
  {
    var t :| Traces(t, steps, id, lim) && Connects(t, w, end, h, after);
    TraceMeans(t, steps, id, lim);
  }

  lemma TraceCompose(t: Trace, first: seq<Step>, u: Trace, second: seq<Step>, id: string, lim: Limits)
    requires Traces(t, first, id, lim) && Traces(u, second, id, lim)
    requires t.worlds[|first|] == u.worlds[0] && t.histories[|first|] == u.histories[0]
    ensures Traces(Trace(t.worlds + u.worlds[1..], t.histories + u.histories[1..]), first + second, id, lim)
  {
    var all, steps := Trace(t.worlds + u.worlds[1..], t.histories + u.histories[1..]), first + second;
    forall k {:trigger steps[k]} | 0 <= k < |steps|
      ensures Moves(all.worlds[k], steps[k], all.worlds[k + 1], id, all.histories[k], all.histories[k + 1])
    {
      if k < |first| {
        assert steps[k] == first[k];
      } else {
        assert steps[k] == second[k - |first|];
      }
    }
  }

  lemma ReachesCompose(a: World, first: seq<Step>, b: World, second: seq<Step>, c: World, id: string, lim: Limits,
                       h: seq<int>, mid: seq<int>, after: seq<int>)
    requires Reaches(a, first, b, id, lim, h, mid) && Reaches(b, second, c, id, lim, mid, after)
    ensures Reaches(a, first + second, c, id, lim, h, after)
  {
    var t :| Traces(t, first, id, lim) && Connects(t, a, b, h, mid);
    var u :| Traces(u, second, id, lim) && Connects(u, b, c, mid, after);
    TraceCompose(t, first, u, second, id, lim);
    assert Connects(Trace(t.worlds + u.worlds[1..], t.histories + u.histories[1..]), a, c, h, after);
  }

  lemma ReachesOne(w: World, step: Step, id: string, lim: Limits, h: seq<int>)
    requires Enabled(w, step) && Within(w, id, lim) && Within(Take(w, step), id, lim)
    ensures Reaches(w, [step], Take(w, step), id, lim, h, Record(w, step, id, h))
  {
    var t := Trace([w, Take(w, step)], [h, Record(w, step, id, h)]);
    assert Traces(t, [step], id, lim) && Connects(t, w, Take(w, step), h, Record(w, step, id, h));
  }

  lemma ReachesNone(w: World, id: string, lim: Limits, h: seq<int>)
    requires Within(w, id, lim)
    ensures Reaches(w, [], w, id, lim, h, h)
  {
    assert Traces(Trace([w], [h]), [], id, lim) && Connects(Trace([w], [h]), w, w, h, h);
  }

  // ---------------------------------------------------------------- worlds of the construction

  /**
   * One identifier, the time at which the first requests arrived, the time now, the first number used now, and
   * whether the first requests have passed their check.
   */
  datatype Setup = Setup(id: string, past: int, now: int, base: nat, cleared: bool)

  /** In flight are the first `i` requests and `m` that arrived now and passed their check. */
  ghost predicate Loaded(w: World, g: Setup, i: nat, m: nat) {
    && w.time == g.now && i <= g.base
    && (forall r: nat :: r in w.flight <==> r < i || g.base <= r < g.base + m)
    && (forall r | r in w.flight :: LooksLike(w.flight[r], g, r < g.base))
  }

  predicate LooksLike(q: Request, g: Setup, first: bool) {
    && q.id == g.id && q.now == (if first then g.past else g.now)
    && (q.Checked? <==> g.cleared || !first)
  }

  /** The deque holds `k` failures of now. */
  ghost predicate Has(w: World, g: Setup, k: nat, lock: Option<int>) {
    k < MAX_ATTEMPTS && CellOf(w.state, g.id) == Cell(Nows(k, g.now), lock)
  }

  /** Failures that all read the same time. */
  function Nows(n: nat, now: int): (times: seq<int>)
    ensures |times| == n && forall i | 0 <= i < n :: times[i] == now
  {
    seq(n, _ => now)
  }

  predicate Over(lock: Option<int>, now: int) {
    lock.Some? ==> lock.value <= now
  }

  predicate Room(g: Setup, i: nat, m: nat, lim: Limits) {
    i + m <= lim.flying && (if g.cleared then i else 0) + m <= lim.between
  }

  predicate AtLeast(q: nat, r: nat) { r <= q }

  /** The numbers of `n` requests from the r-th. */
  function Numbers(r: nat, n: nat): set<nat> {
    set q: nat | q < r + n && AtLeast(q, r)
  }

  lemma {:induction false} NumbersSize(r: nat, n: nat)
    ensures |Numbers(r, n)| == n
  {
    if n == 0 {
      assert Numbers(r, n) == {};
    } else {
      assert Numbers(r, n) == Numbers(r, n - 1) + {r + n - 1};
      NumbersSize(r, n - 1);
    }
  }

  lemma LoadedSets(w: World, g: Setup, i: nat, m: nat)
    requires Loaded(w, g, i, m)
    ensures Flying(w, g.id) == Numbers(0, i) + Numbers(g.base, m)
    ensures BetweenSections(w, g.id) == (if g.cleared then Numbers(0, i) else {}) + Numbers(g.base, m)
  {
  }

  lemma LoadedSizes(w: World, g: Setup, i: nat, m: nat)
    requires Loaded(w, g, i, m)
    ensures |Flying(w, g.id)| == i + m
    ensures |BetweenSections(w, g.id)| == (if g.cleared then i else 0) + m
  {
    LoadedSets(w, g, i, m);
    NumbersSize(0, i);
    NumbersSize(g.base, m);
    assert Numbers(0, i) !! Numbers(g.base, m);
  }

  lemma LoadedWithin(w: World, g: Setup, i: nat, m: nat, lim: Limits)
    requires Loaded(w, g, i, m) && Room(g, i, m, lim)
    ensures Within(w, g.id, lim)
  {
    LoadedSizes(w, g, i, m);
  }

  lemma DropNone(n: nat, now: int, read: int)
    requires read <= now
    ensures DropOld(Nows(n, now), read) == Nows(n, now)
  {
  }

  // ---------------------------------------------------------------- one request

  function Come(r: nat, id: string): seq<Step> {
    [Arrive(r, id)] + [Check(r)]
  }

  lemma ComeLoads(w: World, g: Setup, i: nat, m: nat, r: nat, k: nat, lock: Option<int>)
    requires Loaded(w, g, i, m) && Has(w, g, k, lock) && Over(lock, g.now) && r == g.base + m
    ensures r !in w.flight
    ensures Enabled(Take(w, Arrive(r, g.id)), Check(r))
    ensures Loaded(Take(Take(w, Arrive(r, g.id)), Check(r)), g, i, m + 1)
    ensures Has(Take(Take(w, Arrive(r, g.id)), Check(r)), g, k, lock)
  {
    DropNone(k, g.now, g.now);
    var arrived := Take(w, Arrive(r, g.id));
    assert arrived.flight[r] == Arrived(g.id, g.now) && !Locked(arrived.state, g.id, g.now);
    var next := Take(arrived, Check(r));
    assert next.flight == w.flight[r := Checked(g.id, g.now, arrived.clock)];
    forall q | q in next.flight ensures LooksLike(next.flight[q], g, q < g.base) {
      assert q != r ==> LooksLike(w.flight[q], g, q < g.base);
    }
  }

  lemma ArrivalSets(w: World, next: World, r: nat, id: string)
    requires r !in w.flight && next.flight == w.flight[r := Arrived(id, w.time)]
    ensures Flying(next, id) == Flying(w, id) + {r} && BetweenSections(next, id) == BetweenSections(w, id)
  {
  }

  lemma ArrivalSizes(w: World, r: nat, id: string)
    requires r !in w.flight
    ensures |Flying(Take(w, Arrive(r, id)), id)| == |Flying(w, id)| + 1
    ensures |BetweenSections(Take(w, Arrive(r, id)), id)| == |BetweenSections(w, id)|
  {
    ArrivalSets(w, Take(w, Arrive(r, id)), r, id);
    assert r !in Flying(w, id);
  }

  lemma ArrivedWithin(w: World, g: Setup, i: nat, m: nat, r: nat, lim: Limits)
    requires Loaded(w, g, i, m) && Room(g, i, m + 1, lim) && r !in w.flight
    ensures Within(Take(w, Arrive(r, g.id)), g.id, lim)
  {
    LoadedSizes(w, g, i, m);
    ArrivalSizes(w, r, g.id);
  }

  lemma RunCome(w: World, g: Setup, i: nat, m: nat, r: nat, k: nat, lock: Option<int>, lim: Limits, h: seq<int>)
    returns (end: World)
    requires Loaded(w, g, i, m) && Has(w, g, k, lock) && Over(lock, g.now) && Room(g, i, m + 1, lim)
    requires r == g.base + m
    ensures Reaches(w, Come(r, g.id), end, g.id, lim, h, h)
    ensures Loaded(end, g, i, m + 1) && Has(end, g, k, lock)
  {
    ComeLoads(w, g, i, m, r, k, lock);
    var arrived := Take(w, Arrive(r, g.id));
    end := Take(arrived, Check(r));
    LoadedWithin(w, g, i, m, lim);
    ArrivedWithin(w, g, i, m, r, lim);
    LoadedWithin(end, g, i, m + 1, lim);
    ReachesOne(w, Arrive(r, g.id), g.id, lim, h);
    ReachesOne(arrived, Check(r), g.id, lim, h);
    ReachesCompose(w, [Arrive(r, g.id)], arrived, [Check(r)], end, g.id, lim, h, h, h);
  }

  function LockAfter(k: nat, lock: Option<int>, now: int): Option<int> {
    if k >= MAX_ATTEMPTS then Some(now + LOCKOUT) else lock
  }

  /** The last of the requests of now fails. */
  lemma FailUnloads(w: World, g: Setup, i: nat, m: nat, r: nat, k: nat, lock: Option<int>)
    requires m > 0 && Loaded(w, g, i, m) && Has(w, g, k, lock) && r == g.base + m - 1
    ensures Enabled(w, Finish(r, false)) && w.flight[r].id == g.id && w.flight[r].now == g.now
    ensures Loaded(Take(w, Finish(r, false)), g, i, m - 1)
    ensures Has(Take(w, Finish(r, false)), g, (k + 1) % MAX_ATTEMPTS, LockAfter(k + 1, lock, g.now))
  {
    assert r in w.flight && LooksLike(w.flight[r], g, false);
    var next := Take(w, Finish(r, false));
    assert next.flight == w.flight - {r};
    forall q | q in next.flight ensures LooksLike(next.flight[q], g, q < g.base) {
      assert LooksLike(w.flight[q], g, q < g.base);
    }
    assert Nows(k, g.now) + [g.now] == Nows(k + 1, g.now);
    assert Nows(0, g.now) == [];
  }

  lemma RunFail(w: World, g: Setup, i: nat, m: nat, r: nat, k: nat, lock: Option<int>, lim: Limits, h: seq<int>)
    returns (end: World)
    requires m > 0 && Loaded(w, g, i, m) && Has(w, g, k, lock) && Room(g, i, m, lim) && r == g.base + m - 1
    ensures Reaches(w, [Finish(r, false)], end, g.id, lim, h, h + [g.now])
    ensures Loaded(end, g, i, m - 1) && Has(end, g, (k + 1) % MAX_ATTEMPTS, LockAfter(k + 1, lock, g.now))
  {
    FailUnloads(w, g, i, m, r, k, lock);
    end := Take(w, Finish(r, false));
    LoadedWithin(w, g, i, m, lim);
    LoadedWithin(end, g, i, m - 1, lim);
    ReachesOne(w, Finish(r, false), g.id, lim, h);
  }

  // ---------------------------------------------------------------- many requests

  /** Requests one after the other, each failing before the next arrives. */
  function Sequence(r: nat, n: nat, id: string): seq<Step>
    decreases n
  {
    if n == 0 then [] else Come(r, id) + [Finish(r, false)] + Sequence(r, n - 1, id)
  }

  /** Requests that overlap. */
  function Enter(r: nat, n: nat, id: string): seq<Step>
    decreases n
  {
    if n == 0 then [] else Come(r, id) + Enter(r + 1, n - 1, id)
  }

  /** Their failures. */
  function FailAll(r: nat, n: nat): seq<Step>
    decreases n
  {
    if n == 0 then [] else [Finish(r + n - 1, false)] + FailAll(r, n - 1)
  }

  lemma NoNows(h: seq<int>, n: nat, now: int)
    requires n == 0
    ensures h + Nows(n, now) == h
  {
  }

  lemma AppendNow(h: seq<int>, n: nat, now: int)
    ensures n > 0 ==> h + [now] + Nows(n - 1, now) == h + Nows(n, now)
  {
  }

  lemma ComposeSequence(w: World, come: World, failed: World, end: World, r: nat, n: nat, id: string, lim: Limits,
                        h: seq<int>, now: int)
    requires n > 0 && Reaches(w, Come(r, id), come, id, lim, h, h)
    requires Reaches(come, [Finish(r, false)], failed, id, lim, h, h + [now])
    requires Reaches(failed, Sequence(r, n - 1, id), end, id, lim, h + [now], h + [now] + Nows(n - 1, now))
    ensures Reaches(w, Sequence(r, n, id), end, id, lim, h, h + Nows(n, now))
  {
    var after := h + Nows(n, now);
    AppendNow(h, n, now);
    ReachesCompose(w, Come(r, id), come, [Finish(r, false)], failed, id, lim, h, h, h + [now]);
    ReachesCompose(w, Come(r, id) + [Finish(r, false)], failed, Sequence(r, n - 1, id), end, id, lim,
                   h, h + [now], after);
  }

  lemma {:induction false} RunSequence(w: World, g: Setup, i: nat, k: nat, n: nat, lock: Option<int>, lim: Limits,
                                       h: seq<int>) returns (end: World)
    requires Loaded(w, g, i, 0) && Has(w, g, k, lock) && Over(lock, g.now) && Room(g, i, 1, lim)
    requires k + n < MAX_ATTEMPTS
    ensures Reaches(w, Sequence(g.base, n, g.id), end, g.id, lim, h, h + Nows(n, g.now))
    ensures Loaded(end, g, i, 0) && Has(end, g, k + n, lock)
    decreases n
  {
    if n == 0 {
      end := w;
      assert Sequence(g.base, n, g.id) == [];
      NoNows(h, n, g.now);
      LoadedWithin(w, g, i, 0, lim);
      ReachesNone(w, g.id, lim, h);
    } else {
      var come := RunCome(w, g, i, 0, g.base, k, lock, lim, h);
      var failed := RunFail(come, g, i, 1, g.base, k, lock, lim, h);
      end := RunSequence(failed, g, i, k + 1, n - 1, lock, lim, h + [g.now]);
      ComposeSequence(w, come, failed, end, g.base, n, g.id, lim, h, g.now);
    }
  }

  lemma ComposeEnter(w: World, come: World, end: World, r: nat, n: nat, id: string, lim: Limits, h: seq<int>)
    requires n > 0 && Reaches(w, Come(r, id), come, id, lim, h, h)
    requires Reaches(come, Enter(r + 1, n - 1, id), end, id, lim, h, h)
    ensures Reaches(w, Enter(r, n, id), end, id, lim, h, h)
  {
    ReachesCompose(w, Come(r, id), come, Enter(r + 1, n - 1, id), end, id, lim, h, h, h);
  }

  lemma {:induction false} RunEnter(w: World, g: Setup, i: nat, m: nat, r: nat, n: nat, k: nat, lock: Option<int>,
                                    lim: Limits, h: seq<int>) returns (end: World)
    requires Loaded(w, g, i, m) && Has(w, g, k, lock) && Over(lock, g.now) && Room(g, i, m + n, lim)
    requires r == g.base + m
    ensures Reaches(w, Enter(r, n, g.id), end, g.id, lim, h, h)
    ensures Loaded(end, g, i, m + n) && Has(end, g, k, lock)
    decreases n
  {
    if n == 0 {
      end := w;
      assert Enter(r, n, g.id) == [];
      LoadedWithin(w, g, i, m, lim);
      ReachesNone(w, g.id, lim, h);
    } else {
      var come := RunCome(w, g, i, m, r, k, lock, lim, h);
      end := RunEnter(come, g, i, m + 1, r + 1, n - 1, k, lock, lim, h);
      ComposeEnter(w, come, end, r, n, g.id, lim, h);
    }
  }

  lemma OneThenRest(k: nat, m: nat, lock: Option<int>, now: int)
    requires k < MAX_ATTEMPTS && m > 0
    ensures ((k + 1) % MAX_ATTEMPTS + (m - 1)) % MAX_ATTEMPTS == (k + m) % MAX_ATTEMPTS
    ensures LockAfter((k + 1) % MAX_ATTEMPTS + (m - 1), LockAfter(k + 1, lock, now), now) == LockAfter(k + m, lock, now)
  {
  }

  /** The deque and the lockout after `m` failures of now on top of `k`. */
  ghost predicate HasAfter(w: World, g: Setup, k: nat, m: nat, lock: Option<int>) {
    Has(w, g, (k + m) % MAX_ATTEMPTS, LockAfter(k + m, lock, g.now))
  }

  lemma HasAfterOne(w: World, g: Setup, k: nat, m: nat, lock: Option<int>)
    requires k < MAX_ATTEMPTS && m > 0
    requires HasAfter(w, g, (k + 1) % MAX_ATTEMPTS, m - 1, LockAfter(k + 1, lock, g.now))
    ensures HasAfter(w, g, k, m, lock)
  {
    OneThenRest(k, m, lock, g.now);
  }

  lemma ComposeFailures(w: World, failed: World, end: World, r: nat, m: nat, id: string, lim: Limits, h: seq<int>,
                        now: int)
    requires m > 0 && Reaches(w, [Finish(r + m - 1, false)], failed, id, lim, h, h + [now])
    requires Reaches(failed, FailAll(r, m - 1), end, id, lim, h + [now], h + [now] + Nows(m - 1, now))
    ensures Reaches(w, FailAll(r, m), end, id, lim, h, h + Nows(m, now))
  {
    AppendNow(h, m, now);
    ReachesCompose(w, [Finish(r + m - 1, false)], failed, FailAll(r, m - 1), end, id, lim, h, h + [now],
                   h + Nows(m, now));
  }

  lemma NoFailures(w: World, g: Setup, i: nat, m: nat, k: nat, lock: Option<int>, lim: Limits, h: seq<int>)
    requires m == 0 && Loaded(w, g, i, m) && Has(w, g, k, lock) && Room(g, i, m, lim)
    ensures Reaches(w, FailAll(g.base, m), w, g.id, lim, h, h + Nows(m, g.now))
    ensures Loaded(w, g, i, 0) && HasAfter(w, g, k, m, lock)
  {
    NoNows(h, m, g.now);
    LoadedWithin(w, g, i, m, lim);
    ReachesNone(w, g.id, lim, h);
  }

  lemma {:induction false} RunFailAll(w: World, g: Setup, i: nat, m: nat, k: nat, lock: Option<int>, lim: Limits,
                                      h: seq<int>) returns (end: World)
    requires Loaded(w, g, i, m) && Has(w, g, k, lock) && Room(g, i, m, lim)
    ensures Reaches(w, FailAll(g.base, m), end, g.id, lim, h, h + Nows(m, g.now))
    ensures Loaded(end, g, i, 0) && HasAfter(end, g, k, m, lock)
    decreases m
  {
    if m == 0 {
      end := w;
      NoFailures(w, g, i, m, k, lock, lim, h);
    } else {
      var failed := RunFail(w, g, i, m, g.base + m - 1, k, lock, lim, h);
      var k', lock' := (k + 1) % MAX_ATTEMPTS, LockAfter(k + 1, lock, g.now);
      end := RunFailAll(failed, g, i, m - 1, k', lock', lim, h + [g.now]);
      HasAfterOne(end, g, k, m, lock);
      ComposeFailures(w, failed, end, g.base, m, g.id, lim, h, g.now);
    }
  }

  /** One of the first requests fails where the deque is full but for it: its lockout replaces whatever was there. */
  lemma RunPast(w: World, g: Setup, i: nat, lock: Option<int>, lim: Limits, h: seq<int>) returns (end: World)
    requires i > 0 && Loaded(w, g, i, 0) && g.cleared && Has(w, g, MAX_ATTEMPTS - 1, lock) && Room(g, i, 0, lim)
    ensures Reaches(w, [Finish(i - 1, false)], end, g.id, lim, h, h + [g.past])
    ensures Loaded(end, g, i - 1, 0) && Has(end, g, 0, Some(g.past + LOCKOUT))
  {
    assert i - 1 in w.flight && LooksLike(w.flight[i - 1], g, true);
    end := Take(w, Finish(i - 1, false));
    assert end.flight == w.flight - {i - 1};
    forall q | q in end.flight ensures LooksLike(end.flight[q], g, q < g.base) {
      assert LooksLike(w.flight[q], g, q < g.base);
    }
    assert Nows(0, g.now) == [];
    LoadedWithin(w, g, i, 0, lim);
    LoadedWithin(end, g, i - 1, 0, lim);
    ReachesOne(w, Finish(i - 1, false), g.id, lim, h);
  }

  // ---------------------------------------------------------------- the worst run

  /** `n` overlapping failures behind four that did not overlap. */
  function Burst(base: nat, n: nat, id: string): seq<Step> {
    Sequence(base, MAX_ATTEMPTS - 1, id) + (Enter(base, n, id) + FailAll(base, n))
  }

  lemma {:induction false} CountAll(n: nat, now: int)
    ensures CountWithin(Nows(n, now), now) == n
  {
    if n > 0 {
      assert Nows(n, now)[1..] == Nows(n - 1, now);
      CountAll(n - 1, now);
    }
  }

  lemma CountMore(h: seq<int>, n: nat, now: int)
    ensures CountWithin(h + Nows(n, now), now) == CountWithin(h, now) + n
  {
    CountAll(n, now);
    CountSplit(h, Nows(n, now), now);
  }

  lemma ComposeBurst(w: World, quiet: World, full: World, end: World, r: nat, n: nat, id: string, lim: Limits,
                     h: seq<int>, four: seq<int>, after: seq<int>)
    requires Reaches(w, Sequence(r, MAX_ATTEMPTS - 1, id), quiet, id, lim, h, four)
    requires Reaches(quiet, Enter(r, n, id), full, id, lim, four, four)
    requires Reaches(full, FailAll(r, n), end, id, lim, four, after)
    ensures Reaches(w, Burst(r, n, id), end, id, lim, h, after)
  {
    ReachesCompose(quiet, Enter(r, n, id), full, FailAll(r, n), end, id, lim, four, four, after);
    ReachesCompose(w, Sequence(r, MAX_ATTEMPTS - 1, id), quiet, Enter(r, n, id) + FailAll(r, n), end, id, lim,
                   h, four, after);
  }

  /** The history after such a burst. */
  function AfterBurst(h: seq<int>, n: nat, now: int): seq<int> {
    h + Nows(MAX_ATTEMPTS - 1, now) + Nows(n, now)
  }

  lemma RunBurst(w: World, g: Setup, i: nat, n: nat, lock: Option<int>, lim: Limits, h: seq<int>) returns (end: World)
    requires Loaded(w, g, i, 0) && Has(w, g, 0, lock) && Over(lock, g.now) && Room(g, i, n, lim) && Room(g, i, 1, lim)
    ensures Reaches(w, Burst(g.base, n, g.id), end, g.id, lim, h, AfterBurst(h, n, g.now))
    ensures Loaded(end, g, i, 0) && HasAfter(end, g, MAX_ATTEMPTS - 1, n, lock)
  {
    var four := h + Nows(MAX_ATTEMPTS - 1, g.now);
    var quiet := RunSequence(w, g, i, 0, MAX_ATTEMPTS - 1, lock, lim, h);
    var full := RunEnter(quiet, g, i, 0, g.base, n, MAX_ATTEMPTS - 1, lock, lim, four);
    end := RunFailAll(full, g, i, n, MAX_ATTEMPTS - 1, lock, lim, four);
    ComposeBurst(w, quiet, full, end, g.base, n, g.id, lim, h, four, four + Nows(n, g.now));
  }

  /** As many overlapping failures as fill whole deques, and then one old request that opens the window again. */
  function StageSteps(base: nat, n: nat, i: nat, id: string): seq<Step>
    requires 1 <= i <= n
  {
    Burst(base, MAX_ATTEMPTS * ((n - i) / MAX_ATTEMPTS), id) + [Finish(i - 1, false)]
  }

  /** Whole deques of failures leave the four before them in a deque of four. */
  lemma WholeDeques(w: World, g: Setup, q: nat, lock: Option<int>)
    requires HasAfter(w, g, MAX_ATTEMPTS - 1, MAX_ATTEMPTS * q, lock)
    ensures Has(w, g, MAX_ATTEMPTS - 1, LockAfter(MAX_ATTEMPTS - 1 + MAX_ATTEMPTS * q, lock, g.now))
  {
    assert (MAX_ATTEMPTS - 1 + MAX_ATTEMPTS * q) % MAX_ATTEMPTS == MAX_ATTEMPTS - 1;
  }

  /** The history after a stage, and after all stages from the i-th down. */
  function AfterStage(h: seq<int>, n: nat, i: nat, g: Setup): seq<int>
    requires 1 <= i <= n
  {
    AfterBurst(h, MAX_ATTEMPTS * ((n - i) / MAX_ATTEMPTS), g.now) + [g.past]
  }

  function AfterStages(h: seq<int>, n: nat, i: nat, g: Setup): seq<int>
    requires i <= n
    decreases i
  {
    if i == 0 then h else AfterStages(AfterStage(h, n, i, g), n, i - 1, g)
  }

  lemma CountBurst(h: seq<int>, n: nat, now: int)
    ensures CountWithin(AfterBurst(h, n, now), now) == CountWithin(h, now) + (MAX_ATTEMPTS - 1) + n
  {
    CountMore(h, MAX_ATTEMPTS - 1, now);
    CountMore(h + Nows(MAX_ATTEMPTS - 1, now), n, now);
  }

  lemma {:induction false} CountStages(h: seq<int>, n: nat, i: nat, g: Setup)
    requires i <= n && g.past < g.now
    ensures CountWithin(AfterStages(h, n, i, g), g.now) == CountWithin(h, g.now) + Gain(n, i)
    decreases i
  {
    if i > 0 {
      var m := MAX_ATTEMPTS * ((n - i) / MAX_ATTEMPTS);
      CountBurst(h, m, g.now);
      CountAppend(AfterBurst(h, m, g.now), g.past, g.now);
      CountStages(AfterStage(h, n, i, g), n, i - 1, g);
    }
  }

  lemma ComposeStage(w: World, full: World, end: World, g: Setup, n: nat, i: nat, m: nat, h: seq<int>)
    requires 1 <= i <= n && m == MAX_ATTEMPTS * ((n - i) / MAX_ATTEMPTS)
    requires Reaches(w, Burst(g.base, m, g.id), full, g.id, Limits(n, n), h, AfterBurst(h, m, g.now))
    requires Reaches(full, [Finish(i - 1, false)], end, g.id, Limits(n, n), AfterBurst(h, m, g.now),
                     AfterBurst(h, m, g.now) + [g.past])
    ensures Reaches(w, StageSteps(g.base, n, i, g.id), end, g.id, Limits(n, n), h, AfterStage(h, n, i, g))
  {
    ReachesCompose(w, Burst(g.base, m, g.id), full, [Finish(i - 1, false)], end, g.id, Limits(n, n),
                   h, AfterBurst(h, m, g.now), AfterBurst(h, m, g.now) + [g.past]);
  }

  lemma RunStage(w: World, g: Setup, n: nat, i: nat, lock: Option<int>, h: seq<int>) returns (end: World)
    requires 1 <= i < n && Loaded(w, g, i, 0) && Has(w, g, 0, lock) && Over(lock, g.now)
    requires g.cleared && g.past + LOCKOUT <= g.now
    ensures Reaches(w, StageSteps(g.base, n, i, g.id), end, g.id, Limits(n, n), h, AfterStage(h, n, i, g))
    ensures Loaded(end, g, i - 1, 0) && Has(end, g, 0, Some(g.past + LOCKOUT))
  {
    var q := (n - i) / MAX_ATTEMPTS;
    var m, lim := MAX_ATTEMPTS * q, Limits(n, n);
    var full := RunBurst(w, g, i, m, lock, lim, h);
    WholeDeques(full, g, q, lock);
    end := RunPast(full, g, i, LockAfter(MAX_ATTEMPTS - 1 + m, lock, g.now), lim, AfterBurst(h, m, g.now));
    ComposeStage(w, full, end, g, n, i, m, h);
  }

  function Stages(base: nat, n: nat, i: nat, id: string): seq<Step>
    requires i <= n
    decreases i
  {
    if i == 0 then [] else StageSteps(base, n, i, id) + Stages(base, n, i - 1, id)
  }

  lemma ComposeStages(w: World, next: World, end: World, g: Setup, n: nat, i: nat, h: seq<int>, mid: seq<int>)
    requires 1 <= i <= n && mid == AfterStage(h, n, i, g)
    requires Reaches(w, StageSteps(g.base, n, i, g.id), next, g.id, Limits(n, n), h, mid)
    requires Reaches(next, Stages(g.base, n, i - 1, g.id), end, g.id, Limits(n, n), mid,
                     AfterStages(mid, n, i - 1, g))
    ensures Reaches(w, Stages(g.base, n, i, g.id), end, g.id, Limits(n, n), h, AfterStages(h, n, i, g))
  {
    ReachesCompose(w, StageSteps(g.base, n, i, g.id), next, Stages(g.base, n, i - 1, g.id), end, g.id, Limits(n, n),
                   h, mid, AfterStages(mid, n, i - 1, g));
  }

  lemma NoStages(w: World, g: Setup, n: nat, i: nat, h: seq<int>)
    requires i == 0 && i < n && Loaded(w, g, i, 0)
    ensures Reaches(w, Stages(g.base, n, i, g.id), w, g.id, Limits(n, n), h, AfterStages(h, n, i, g))
    ensures Loaded(w, g, 0, 0)
  {
    LoadedWithin(w, g, i, 0, Limits(n, n));
    ReachesNone(w, g.id, Limits(n, n), h);
  }

  lemma {:induction false} RunStages(w: World, g: Setup, n: nat, i: nat, lock: Option<int>, h: seq<int>)
    returns (end: World, last: Option<int>)
    requires i < n && Loaded(w, g, i, 0) && Has(w, g, 0, lock) && Over(lock, g.now)
    requires g.cleared && g.past + LOCKOUT <= g.now
    ensures Reaches(w, Stages(g.base, n, i, g.id), end, g.id, Limits(n, n), h, AfterStages(h, n, i, g))
    ensures Loaded(end, g, 0, 0) && Has(end, g, 0, last) && Over(last, g.now)
    decreases i
  {
    if i == 0 {
      end, last := w, lock;
      NoStages(w, g, n, i, h);
    } else {
      var mid := AfterStage(h, n, i, g);
      var next := RunStage(w, g, n, i, lock, h);
      end, last := RunStages(next, g, n, i - 1, Some(g.past + LOCKOUT), mid);
      ComposeStages(w, next, end, g, n, i, h, mid);
    }
  }

  lemma StartIsLoaded(time: int, id: string)
    ensures Loaded(Start(time), Setup(id, time, time, 0, true), 0, 0)
    ensures Has(Start(time), Setup(id, time, time, 0, true), 0, None)
  {
    assert Nows(0, time) == [];
  }

  /** Time passes, and the requests in flight become the first ones. */
  lemma RunPass(w: World, g: Setup, m: nat, span: nat, lock: Option<int>, lim: Limits, h: seq<int>) returns (end: World)
    requires Loaded(w, g, 0, m) && g.base == 0 && Has(w, g, 0, lock) && Room(g, 0, m, lim)
    ensures Reaches(w, [Pass(span)], end, g.id, lim, h, h)
    ensures Loaded(end, Setup(g.id, g.now, g.now + span, m + 1, true), m, 0)
    ensures Has(end, Setup(g.id, g.now, g.now + span, m + 1, true), 0, lock)
  {
    var later := Setup(g.id, g.now, g.now + span, m + 1, true);
    end := Take(w, Pass(span));
    forall q | q in end.flight ensures LooksLike(end.flight[q], later, q < later.base) {
      assert LooksLike(w.flight[q], g, q < g.base);
    }
    assert Nows(0, g.now) == [] && Nows(0, later.now) == [];
    LoadedWithin(w, g, 0, m, lim);
    LoadedWithin(end, later, m, 0, lim);
    ReachesOne(w, Pass(span), g.id, lim, h);
  }

  /** All but one request arrive and pass their checks, and a lockout later they are still in flight. */
  function Prologue(n: nat, id: string): seq<Step>
    requires n > 0
  {
    Enter(0, n - 1, id) + [Pass(LOCKOUT)]
  }

  lemma RunPrologue(time: int, n: nat, id: string) returns (end: World)
    requires n > 0
    ensures Reaches(Start(time), Prologue(n, id), end, id, Limits(n, n), [], [])
    ensures Loaded(end, Setup(id, time, time + LOCKOUT, n, true), n - 1, 0)
    ensures Has(end, Setup(id, time, time + LOCKOUT, n, true), 0, None)
  {
    var lim, g := Limits(n, n), Setup(id, time, time, 0, true);
    StartIsLoaded(time, id);
    var entered := RunEnter(Start(time), g, 0, 0, 0, n - 1, 0, None, lim, []);
    end := RunPass(entered, g, n - 1, LOCKOUT, None, lim, []);
    ReachesCompose(Start(time), Enter(0, n - 1, id), entered, [Pass(LOCKOUT)], end, id, lim, [], [], []);
  }

  /** Then they are used one by one to open the window, and at the end all `n` at once fail in it. */
  function WorstRun(n: nat, id: string): seq<Step>
    requires n > 0
  {
    Prologue(n, id) + (Stages(n, n, n - 1, id) + Burst(n, n, id))
  }

  /** The history at the end of the worst run. */
  function AfterWorst(n: nat, g: Setup): seq<int>
    requires n > 0
  {
    AfterBurst(AfterStages([], n, n - 1, g), n, g.now)
  }

  lemma ComposeWindow(w: World, spent: World, end: World, g: Setup, n: nat, mid: seq<int>)
    requires n > 0 && mid == AfterStages([], n, n - 1, g)
    requires Reaches(w, Stages(g.base, n, n - 1, g.id), spent, g.id, Limits(n, n), [], mid)
    requires Reaches(spent, Burst(g.base, n, g.id), end, g.id, Limits(n, n), mid, AfterBurst(mid, n, g.now))
    ensures Reaches(w, Stages(g.base, n, n - 1, g.id) + Burst(g.base, n, g.id), end, g.id, Limits(n, n), [],
                    AfterWorst(n, g))
  {
    ReachesCompose(w, Stages(g.base, n, n - 1, g.id), spent, Burst(g.base, n, g.id), end, g.id, Limits(n, n),
                   [], mid, AfterBurst(mid, n, g.now));
  }

  lemma RunWindow(w: World, g: Setup, n: nat) returns (end: World)
    requires n > 0 && Loaded(w, g, n - 1, 0) && Has(w, g, 0, None)
    requires g.cleared && g.past + LOCKOUT <= g.now
    ensures Reaches(w, Stages(g.base, n, n - 1, g.id) + Burst(g.base, n, g.id), end, g.id, Limits(n, n), [],
                    AfterWorst(n, g))
  {
    var mid := AfterStages([], n, n - 1, g);
    var spent, lock := RunStages(w, g, n, n - 1, None, []);
    end := RunBurst(spent, g, 0, n, lock, Limits(n, n), mid);
    ComposeWindow(w, spent, end, g, n, mid);
  }

  lemma RunWorst(time: int, n: nat, id: string) returns (end: World)
    requires n > 0
    ensures Reaches(Start(time), WorstRun(n, id), end, id, Limits(n, n), [],
                    AfterWorst(n, Setup(id, time, time + LOCKOUT, n, true)))
  {
    var g := Setup(id, time, time + LOCKOUT, n, true);
    var later := RunPrologue(time, n, id);
    end := RunWindow(later, g, n);
    ReachesCompose(Start(time), Prologue(n, id), later, Stages(n, n, n - 1, id) + Burst(n, n, id), end, id,
                   Limits(n, n), [], [], AfterWorst(n, g));
  }

  lemma CountWorst(n: nat, g: Setup)
    requires n > 0 && g.past < g.now
    ensures CountWithin(AfterWorst(n, g), g.now) == Worst(n)
  {
    CountStages([], n, n - 1, g);
    CountBurst(AfterStages([], n, n - 1, g), n, g.now);
  }

  // ---------------------------------------------------------------- main results

  /** A run with at most `n` requests of the identifier in flight and `count` failures in the window from `start`. */
  ghost predicate Attains(time: int, steps: seq<Step>, end: World, id: string, n: nat, start: int, count: nat) {
    && IsRun(Start(time), steps, end) && AtMost(Start(time), steps, id, n)
    && CountWithin(FailuresOf(time, steps, id), start) == count
  }

  /**
   * The worst case, exactly: with at most `n` requests of an identifier in flight no run ever has more than
   * `Worst(n)` failures in one window, and from any time on some run has as many.
   */
  lemma WorstCase(n: nat, id: string, time: int) returns (steps: seq<Step>, end: World)
    ensures Attains(time, steps, end, id, n, time + LOCKOUT, Worst(n))
    ensures forall other, last, start, count: nat | Attains(time, other, last, id, n, start, count) :: count <= Worst(n)
  {
    if n == 0 {
      steps, end := [], Start(time);
      assert Flying(Start(time), id) == {};
    } else {
      steps := WorstRun(n, id);
      var g := Setup(id, time, time + LOCKOUT, n, true);
      end := RunWorst(time, n, id);
      ReachesMeans(Start(time), steps, end, id, Limits(n, n), [], AfterWorst(n, g));
      CountWorst(n, g);
    }
    forall other, last, start, count: nat | Attains(time, other, last, id, n, start, count) ensures count <= Worst(n) {
      NeverWorse(time, other, last, id, n, start);
    }
  }

  /** Every run in which at most `limit` requests of the identifier are in flight keeps the rate bound. */
  ghost predicate LimitKeepsBound(limit: nat, id: string) {
    forall time, steps, end, start, count: nat | Attains(time, steps, end, id, limit, start, count) ::
      count <= MAX_ATTEMPTS
  }

  /** The rate bound holds of all runs if and only if requests of one identifier do not overlap. */
  lemma BoundIffNoOverlap(limit: nat, id: string)
    ensures LimitKeepsBound(limit, id) <==> limit <= 1
  {
    WorstIs(limit);
    if limit <= 1 {
      forall time, steps, end, start, count: nat | Attains(time, steps, end, id, limit, start, count)
        ensures count <= MAX_ATTEMPTS
      {
        NeverWorse(time, steps, end, id, limit, start);
      }
    } else {
      var steps, end := WorstCase(limit, id, 0);
      assert Worst(limit) > MAX_ATTEMPTS;
    }
  }

  /** Any number of failures can be registered at one instant. */
  lemma BurstOfAnySize(n: nat, id: string, time: int) returns (end: World)
    ensures Attains(time, Enter(0, n, id) + FailAll(0, n), end, id, n, time, n)
  {
    var lim, g := Limits(n, n), Setup(id, time, time, 0, true);
    StartIsLoaded(time, id);
    var full := RunEnter(Start(time), g, 0, 0, 0, n, 0, None, lim, []);
    end := RunFailAll(full, g, 0, n, 0, None, lim, []);
    assert [] + Nows(n, time) == Nows(n, time);
    ReachesCompose(Start(time), Enter(0, n, id), full, FailAll(0, n), end, id, lim, [], [], Nows(n, time));
    ReachesMeans(Start(time), Enter(0, n, id) + FailAll(0, n), end, id, lim, [], Nows(n, time));
    CountAll(n, time);
  }

  // ---------------------------------------------------------------- a stale clock

  /** One request reads the clock and is held up; four others fail; it fails in its turn; later five more fail. */
  function StaleRun(id: string): seq<Step> {
    [Arrive(0, id)] + [Pass(LOCKOUT - WINDOW)] + Sequence(1, MAX_ATTEMPTS - 1, id)
    + ([Check(0)] + [Finish(0, false)] + [Pass(WINDOW)] + Burst(1, 1, id))
  }

  const StaleLimits := Limits(2, 1)

  lemma RunHeldUp(time: int, id: string) returns (end: World)
    ensures Reaches(Start(time), [Arrive(0, id)] + [Pass(LOCKOUT - WINDOW)], end, id, StaleLimits, [], [])
    ensures Loaded(end, Setup(id, time, time + LOCKOUT - WINDOW, 1, false), 1, 0)
    ensures Has(end, Setup(id, time, time + LOCKOUT - WINDOW, 1, false), 0, None)
  {
    var g := Setup(id, time, time + LOCKOUT - WINDOW, 1, false);
    StartIsLoaded(time, id);
    LoadedSizes(Start(time), Setup(id, time, time, 0, true), 0, 0);
    var arrived := Take(Start(time), Arrive(0, id));
    ArrivalSizes(Start(time), 0, id);
    end := Take(arrived, Pass(LOCKOUT - WINDOW));
    assert end.flight == map[0 := Arrived(id, time)];
    assert Nows(0, g.now) == [];
    LoadedWithin(end, g, 1, 0, StaleLimits);
    ReachesOne(Start(time), Arrive(0, id), id, StaleLimits, []);
    ReachesOne(arrived, Pass(LOCKOUT - WINDOW), id, StaleLimits, []);
    ReachesCompose(Start(time), [Arrive(0, id)], arrived, [Pass(LOCKOUT - WINDOW)], end, id, StaleLimits, [], [], []);
  }

  /** The request that was held up passes its check, because its own reading is older than all failures. */
  lemma RunLateCheck(w: World, g: Setup, h: seq<int>) returns (end: World)
    requires Loaded(w, g, 1, 0) && !g.cleared && g.base == 1 && g.past <= g.now && Has(w, g, MAX_ATTEMPTS - 1, None)
    ensures Reaches(w, [Check(0)], end, g.id, StaleLimits, h, h)
    ensures Loaded(end, g.(cleared := true), 1, 0) && Has(end, g.(cleared := true), MAX_ATTEMPTS - 1, None)
  {
    assert 0 in w.flight && LooksLike(w.flight[0], g, true);
    DropNone(MAX_ATTEMPTS - 1, g.now, g.past);
    end := Take(w, Check(0));
    assert end.flight == w.flight[0 := Checked(g.id, g.past, w.clock)];
    LoadedWithin(w, g, 1, 0, StaleLimits);
    LoadedWithin(end, g.(cleared := true), 1, 0, StaleLimits);
    ReachesOne(w, Check(0), g.id, StaleLimits, h);
  }

  lemma RunAllGone(w: World, g: Setup, span: nat, lock: Option<int>, h: seq<int>) returns (end: World)
    requires Loaded(w, g, 0, 0) && Has(w, g, 0, lock)
    ensures Reaches(w, [Pass(span)], end, g.id, StaleLimits, h, h)
    ensures Loaded(end, g.(now := g.now + span), 0, 0) && Has(end, g.(now := g.now + span), 0, lock)
  {
    end := Take(w, Pass(span));
    assert Nows(0, g.now) == [] && Nows(0, g.now + span) == [];
    LoadedWithin(w, g, 0, 0, StaleLimits);
    LoadedWithin(end, g.(now := g.now + span), 0, 0, StaleLimits);
    ReachesOne(w, Pass(span), g.id, StaleLimits, h);
  }

  /** From the check that was held up to the end. */
  lemma RunStaleEnd(w: World, g: Setup, h: seq<int>) returns (end: World, after: seq<int>)
    requires Loaded(w, g, 1, 0) && !g.cleared && g.base == 1 && g.now == g.past + LOCKOUT - WINDOW
    requires Has(w, g, MAX_ATTEMPTS - 1, None)
    ensures Reaches(w, [Check(0)] + [Finish(0, false)] + [Pass(WINDOW)] + Burst(1, 1, g.id), end, g.id, StaleLimits,
                    h, after)
    ensures CountWithin(after, g.now) == CountWithin(h, g.now) + MAX_ATTEMPTS
  {
    var late := g.(cleared := true);
    var mid, last := h + [g.past], late.(now := late.now + WINDOW);
    after := AfterBurst(mid, 1, last.now);
    var checked := RunLateCheck(w, g, h);
    var failed := RunPast(checked, late, 1, None, StaleLimits, h);
    var waited := RunAllGone(failed, late, WINDOW, Some(g.past + LOCKOUT), mid);
    end := RunBurst(waited, last, 0, 1, Some(g.past + LOCKOUT), StaleLimits, mid);
    ReachesCompose(w, [Check(0)], checked, [Finish(0, false)], failed, g.id, StaleLimits, h, h, mid);
    ReachesCompose(w, [Check(0)] + [Finish(0, false)], failed, [Pass(WINDOW)], waited, g.id, StaleLimits, h, mid, mid);
    ReachesCompose(w, [Check(0)] + [Finish(0, false)] + [Pass(WINDOW)], waited, Burst(1, 1, g.id), end, g.id,
                   StaleLimits, h, mid, after);
    CountAppend(h, g.past, g.now);
    CountAtEnd(mid, MAX_ATTEMPTS - 1, last.now, g.now);
    CountAtEnd(mid + Nows(MAX_ATTEMPTS - 1, last.now), 1, last.now, g.now);
  }

  lemma {:induction false} CountAtEnd(h: seq<int>, n: nat, now: int, s: int)
    requires IsHot(now, s)
    ensures CountWithin(h + Nows(n, now), s) == CountWithin(h, s) + n
  {
    if n == 0 {
      assert h + Nows(0, now) == h;
    } else {
      assert h + Nows(n, now) == h + Nows(n - 1, now) + [now];
      CountAtEnd(h, n - 1, now, s);
      CountAppend(h + Nows(n - 1, now), now, s);
    }
  }

  /**
   * Counting requests only between their two locked sections is not enough: with never more than one there, a
   * request that read the clock long before its check lets nine failures into one window.
   */
  lemma StaleClockBreaksBound(time: int, id: string) returns (end: World)
    ensures IsRun(Start(time), StaleRun(id), end)
    ensures AtMostBetween(Start(time), StaleRun(id), id, 1) && AtMost(Start(time), StaleRun(id), id, 2)
    ensures CountWithin(FailuresOf(time, StaleRun(id), id), time + LOCKOUT - WINDOW) == 2 * MAX_ATTEMPTS - 1
  {
    var g := Setup(id, time, time + LOCKOUT - WINDOW, 1, false);
    var h := Nows(MAX_ATTEMPTS - 1, g.now);
    var prefix := [Arrive(0, id)] + [Pass(LOCKOUT - WINDOW)];
    var suffix := [Check(0)] + [Finish(0, false)] + [Pass(WINDOW)] + Burst(1, 1, id);
    var held := RunHeldUp(time, id);
    var four := RunSequence(held, g, 1, 0, MAX_ATTEMPTS - 1, None, StaleLimits, []);
    assert [] + h == h;
    var after;
    end, after := RunStaleEnd(four, g, h);
    ReachesCompose(Start(time), prefix, held, Sequence(1, MAX_ATTEMPTS - 1, id), four, id, StaleLimits, [], [], h);
    ReachesCompose(Start(time), prefix + Sequence(1, MAX_ATTEMPTS - 1, id), four, suffix, end, id, StaleLimits,
                   [], h, after);
    ReachesMeans(Start(time), prefix + Sequence(1, MAX_ATTEMPTS - 1, id) + suffix, end, id, StaleLimits, [], after);
    CountAll(MAX_ATTEMPTS - 1, g.now);
  }
}
