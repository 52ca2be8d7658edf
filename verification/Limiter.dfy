/** The sliding-window limiters of web/auth.py. A request reads the list of failures before it
    reads the form, and writes it after, so requests from one address interleave. */
module Limiter {

  // ---- The list of one address ----

  type Attempts = map<string, seq<real>>

  datatype Limits = Limits(max: nat, window: real)

  const LOGIN := Limits(5, 60.0)
  const MFA := Limits(5, 300.0)

  function Get(a: Attempts, ip: string): seq<real> {
    if ip in a then a[ip] else []
  }

  /** [t for t in attempts if now - t < window] */
  function Recent(ts: seq<real>, now: real, window: real): seq<real> {
    if ts == [] then []
    else if now - ts[|ts| - 1] < window then Recent(ts[..|ts| - 1], now, window) + [ts[|ts| - 1]]
    else Recent(ts[..|ts| - 1], now, window)
  }

  predicate Locked(l: Limits, a: Attempts, ip: string, now: real) {
    |Recent(Get(a, ip), now, l.window)| >= l.max
  }

  function Checked(l: Limits, a: Attempts, ip: string, now: real): Attempts {
    a[ip := Recent(Get(a, ip), now, l.window)]
  }

  function Recorded(l: Limits, a: Attempts, ip: string, now: real): Attempts {
    a[ip := Recent(Get(a, ip), now, l.window) + [now]]
  }

  function Cleared(a: Attempts, ip: string): Attempts {
    map x | x in a && x != ip :: a[x]
  }

  class RateLimiter {
    const limits: Limits
    var attempts: Attempts

    constructor (limits: Limits)
      ensures this.limits == limits && attempts == map[]
    {
      this.limits := limits;
      attempts := map[];
    }

    method Prune(ip: string, now: real) returns (kept: seq<real>)
      ensures kept == Recent(Get(attempts, ip), now, limits.window)
    {
      var all := if ip in attempts then attempts[ip] else [];
      kept := [];
      for i := 0 to |all|
        invariant kept == Recent(all[..i], now, limits.window)
      {
        assert all[..i + 1][..i] == all[..i];
        if now - all[i] < limits.window {
          kept := kept + [all[i]];
        }
      }
      assert all[..|all|] == all;
    }

    method IsRateLimited(ip: string, now: real) returns (locked: bool)
      modifies this`attempts
      ensures locked == Locked(limits, old(attempts), ip, now)
      ensures attempts == Checked(limits, old(attempts), ip, now)
    {
      var kept := Prune(ip, now);
      attempts := attempts[ip := kept];
      locked := |kept| >= limits.max;
    }

    method RecordFailed(ip: string, now: real)
      modifies this`attempts
      ensures attempts == Recorded(limits, old(attempts), ip, now)
    {
      var kept := Prune(ip, now);
      kept := kept + [now];
      attempts := attempts[ip := kept];
    }

    method Clear(ip: string)
      modifies this`attempts
      ensures attempts == Cleared(old(attempts), ip)
    {
      attempts := attempts - {ip};
    }
  }

  // ---- Runs of interleaved requests ----

  /** A request checks the limit; one that passes is in flight until it records a failure, clears
      the list on success, or is abandoned. */
  datatype Event =
    | Check(ip: string, now: real)
    | Fail(ip: string, now: real)
    | Succeed(ip: string)
    | Abandon(ip: string)

  /** The limiter, every failure since the last success, the requests in flight and the clock. */
  datatype State = State(attempts: Attempts, history: Attempts, flying: map<string, int>, clock: real)

  function Flying(s: State, ip: string): int {
    if ip in s.flying then s.flying[ip] else 0
  }

  /** The clock does not go back, only requests in flight end, and at most k of one address are
      in flight at a time. */
  predicate Enabled(k: nat, s: State, e: Event) {
    match e
    case Check(ip, now) => s.clock <= now && Flying(s, ip) < k
    case Fail(ip, now) => s.clock <= now && Flying(s, ip) > 0
    case Succeed(ip) => Flying(s, ip) > 0
    case Abandon(ip) => Flying(s, ip) > 0
  }

  function Step(l: Limits, s: State, e: Event): State {
    match e
    case Check(ip, now) =>
      State(Checked(l, s.attempts, ip, now), s.history,
            if Locked(l, s.attempts, ip, now) then s.flying else s.flying[ip := Flying(s, ip) + 1], now)
    case Fail(ip, now) =>
      State(Recorded(l, s.attempts, ip, now), s.history[ip := Get(s.history, ip) + [now]],
            s.flying[ip := Flying(s, ip) - 1], now)
    case Succeed(ip) =>
      State(Cleared(s.attempts, ip), Cleared(s.history, ip), s.flying[ip := Flying(s, ip) - 1], s.clock)
    case Abandon(ip) =>
      s.(flying := s.flying[ip := Flying(s, ip) - 1])
  }

  function Run(l: Limits, start: real, events: seq<Event>): State {
    if events == [] then State(map[], map[], map[], start)
    else Step(l, Run(l, start, events[..|events| - 1]), events[|events| - 1])
  }

  predicate AllEnabled(l: Limits, k: nat, start: real, events: seq<Event>) {
    events == []
    || (AllEnabled(l, k, start, events[..|events| - 1])
        && Enabled(k, Run(l, start, events[..|events| - 1]), events[|events| - 1]))
  }

  // ---- Filtering a list in time order ----

  ghost predicate Ordered(ts: seq<real>) {
    forall i, j | 0 <= i < j < |ts| :: ts[i] <= ts[j]
  }

  ghost predicate UpTo(ts: seq<real>, clock: real) {
    forall i | 0 <= i < |ts| :: ts[i] <= clock
  }

  lemma RecentSnoc(ts: seq<real>, t: real, now: real, w: real)
    ensures Recent(ts + [t], now, w) == if now - t < w then Recent(ts, now, w) + [t] else Recent(ts, now, w)
  {
    assert (ts + [t])[..|ts|] == ts;
  }

  /** What an earlier pruning dropped, a later one drops too. */
  lemma {:induction false} RecentTwice(ts: seq<real>, now: real, later: real, w: real)
    requires now <= later
    ensures Recent(Recent(ts, now, w), later, w) == Recent(ts, later, w)
  {
    if ts != [] {
      var front, last := ts[..|ts| - 1], ts[|ts| - 1];
      RecentTwice(front, now, later, w);
      RecentSnoc(Recent(front, now, w), last, later, w);
    }
  }

  lemma {:induction false} RecentOrdered(ts: seq<real>, now: real, w: real)
    requires Ordered(ts)
    ensures Ordered(Recent(ts, now, w))
    ensures ts != [] ==> UpTo(Recent(ts, now, w), ts[|ts| - 1])
  {
    if |ts| > 1 {
      RecentOrdered(ts[..|ts| - 1], now, w);
    }
  }

  lemma {:induction false} RecentShrinks(ts: seq<real>, now: real, later: real, w: real)
    requires now <= later
    ensures |Recent(ts, later, w)| <= |Recent(ts, now, w)|
  {
    if ts != [] {
      RecentShrinks(ts[..|ts| - 1], now, later, w);
    }
  }

  lemma {:induction false} AllRecent(ts: seq<real>, now: real, w: real)
    requires forall i | 0 <= i < |ts| :: now - ts[i] < w
    ensures Recent(ts, now, w) == ts
  {
    if ts != [] {
      AllRecent(ts[..|ts| - 1], now, w);
    }
  }

  lemma {:induction false} NoneRecent(ts: seq<real>, now: real, w: real)
    requires forall i | 0 <= i < |ts| :: now - ts[i] >= w
    ensures Recent(ts, now, w) == []
  {
    if ts != [] {
      NoneRecent(ts[..|ts| - 1], now, w);
    }
  }

  lemma {:induction false} RecentConcat(a: seq<real>, b: seq<real>, now: real, w: real)
    ensures Recent(a + b, now, w) == Recent(a, now, w) + Recent(b, now, w)
  {
    if b == [] {
      assert a + b == a;
    } else {
      assert (a + b)[..|a + b| - 1] == a + b[..|b| - 1];
      RecentConcat(a, b[..|b| - 1], now, w);
    }
  }

  lemma {:induction false} RecentNoLonger(ts: seq<real>, now: real, w: real)
    ensures |Recent(ts, now, w)| <= |ts|
  {
    if ts != [] {
      RecentNoLonger(ts[..|ts| - 1], now, w);
    }
  }

  lemma RecentFrom(h: seq<real>, p: nat, now: real, w: real)
    requires Ordered(h) && p < |h| && now - h[p] < w
    ensures |Recent(h, now, w)| >= |h| - p
  {
    var a, b := h[..p], h[p..];
    forall i | 0 <= i < |b| ensures now - b[i] < w {
      assert h[p] <= h[p + i];
    }
    AllRecent(b, now, w);
    RecentConcat(a, b, now, w);
    assert h == a + b;
  }

  lemma RecentAfter(h: seq<real>, p: nat, now: real, w: real)
    requires Ordered(h) && p < |h| && now - h[p] >= w
    ensures |Recent(h, now, w)| <= |h| - p - 1
  {
    var a, b := h[..p + 1], h[p + 1..];
    forall i | 0 <= i < |a| ensures now - a[i] >= w {
      assert h[i] <= h[p];
    }
    NoneRecent(a, now, w);
    RecentNoLonger(b, now, w);
    RecentConcat(a, b, now, w);
    assert h == a + b;
  }

  // ---- The pruned list and the full history ----

  /** From now on both lists give the same recent failures at every time. */
  ghost predicate SameFrom(l: Limits, a: seq<real>, h: seq<real>, clock: real) {
    forall t: real | clock <= t :: Recent(a, t, l.window) == Recent(h, t, l.window)
  }

  ghost predicate InOrder(s: State, ip: string) {
    && Ordered(Get(s.attempts, ip)) && Ordered(Get(s.history, ip))
    && UpTo(Get(s.attempts, ip), s.clock) && UpTo(Get(s.history, ip), s.clock)
  }

  lemma PruneKeepsSame(l: Limits, a: seq<real>, h: seq<real>, clock: real, now: real)
    requires SameFrom(l, a, h, clock) && clock <= now
    ensures SameFrom(l, Recent(a, now, l.window), h, now)
  {
    forall t: real | now <= t ensures Recent(Recent(a, now, l.window), t, l.window) == Recent(h, t, l.window) {
      RecentTwice(a, now, t, l.window);
    }
  }

  lemma RecordKeepsSame(l: Limits, a: seq<real>, h: seq<real>, clock: real, now: real)
    requires SameFrom(l, a, h, clock) && clock <= now
    ensures SameFrom(l, Recent(a, now, l.window) + [now], h + [now], now)
  {
    PruneKeepsSame(l, a, h, clock, now);
    forall t: real | now <= t
      ensures Recent(Recent(a, now, l.window) + [now], t, l.window) == Recent(h + [now], t, l.window)
    {
      RecentSnoc(Recent(a, now, l.window), now, t, l.window);
      RecentSnoc(h, now, t, l.window);
    }
  }

  /** The lists of one address after a step. */
  lemma StepLists(l: Limits, s: State, e: Event, ip: string)
    ensures var (a, h, t) := (Get(s.attempts, ip), Get(s.history, ip), Step(l, s, e));
            && Get(t.attempts, ip) ==
               (if e.ip != ip || e.Abandon? then a
                else if e.Check? then Recent(a, e.now, l.window)
                else if e.Fail? then Recent(a, e.now, l.window) + [e.now]
                else [])
            && Get(t.history, ip) ==
               (if e.ip != ip || e.Abandon? || e.Check? then h else if e.Fail? then h + [e.now] else [])
            && t.clock == if e.Check? || e.Fail? then e.now else s.clock
  {
  }

  lemma PruneInOrder(ts: seq<real>, clock: real, now: real, w: real)
    requires Ordered(ts) && UpTo(ts, clock) && clock <= now
    ensures Ordered(Recent(ts, now, w)) && UpTo(Recent(ts, now, w), now)
    ensures Ordered(Recent(ts, now, w) + [now]) && UpTo(Recent(ts, now, w) + [now], now)
    ensures Ordered(ts + [now]) && UpTo(ts + [now], now)
  {
    RecentOrdered(ts, now, w);
  }

  lemma StepKeepsOrder(l: Limits, k: nat, s: State, e: Event, ip: string)
    requires Enabled(k, s, e) && InOrder(s, ip)
    ensures InOrder(Step(l, s, e), ip)
  {
    StepLists(l, s, e, ip);
    if e.Check? || e.Fail? {
      PruneInOrder(Get(s.attempts, ip), s.clock, e.now, l.window);
      PruneInOrder(Get(s.history, ip), s.clock, e.now, l.window);
    }
  }

  lemma StepKeepsSame(l: Limits, k: nat, s: State, e: Event, ip: string)
    requires Enabled(k, s, e)
    requires SameFrom(l, Get(s.attempts, ip), Get(s.history, ip), s.clock)
    ensures SameFrom(l, Get(Step(l, s, e).attempts, ip), Get(Step(l, s, e).history, ip), Step(l, s, e).clock)
  {
    StepLists(l, s, e, ip);
    if (e.Check? || e.Fail?) && e.ip == ip {
      if e.Check? {
        PruneKeepsSame(l, Get(s.attempts, ip), Get(s.history, ip), s.clock, e.now);
      } else {
        RecordKeepsSame(l, Get(s.attempts, ip), Get(s.history, ip), s.clock, e.now);
      }
    }
  }

  lemma {:induction false} RunKeepsSame(l: Limits, k: nat, start: real, events: seq<Event>, ip: string)
    requires AllEnabled(l, k, start, events)
    ensures var s := Run(l, start, events);
            InOrder(s, ip) && SameFrom(l, Get(s.attempts, ip), Get(s.history, ip), s.clock)
  {
    if events != [] {
      var front := events[..|events| - 1];
      RunKeepsSame(l, k, start, front, ip);
      StepKeepsOrder(l, k, Run(l, start, front), events[|events| - 1], ip);
      StepKeepsSame(l, k, Run(l, start, front), events[|events| - 1], ip);
    }
  }

  /** After any run, at every later time, the pruned list locks an address out exactly when the
      list of all its failures since its last success would. */
  lemma PruningRefinesHistory(l: Limits, k: nat, start: real, events: seq<Event>, ip: string, now: real)
    requires AllEnabled(l, k, start, events) && Run(l, start, events).clock <= now
    ensures Locked(l, Run(l, start, events).attempts, ip, now) <==> Locked(l, Run(l, start, events).history, ip, now)
  {
    RunKeepsSame(l, k, start, events, ip);
  }

  lemma LastOnesRecent(h: seq<real>, n: nat, now: real, w: real)
    requires 0 < n && Ordered(h)
    ensures |Recent(h, now, w)| >= n <==> |h| >= n && now - h[|h| - n] < w
  {
    RecentNoLonger(h, now, w);
    if |h| >= n {
      if now - h[|h| - n] < w {
        RecentFrom(h, |h| - n, now, w);
      } else {
        RecentAfter(h, |h| - n, now, w);
      }
    }
  }

  /** In time order, locked out means that the last max failures all lie in the window. */
  lemma LockedIff(l: Limits, k: nat, start: real, events: seq<Event>, ip: string, now: real)
    requires l.max > 0 && AllEnabled(l, k, start, events) && Run(l, start, events).clock <= now
    ensures var h := Get(Run(l, start, events).history, ip);
            Locked(l, Run(l, start, events).attempts, ip, now)
            <==> |h| >= l.max && now - h[|h| - l.max] < l.window
  {
    var h := Get(Run(l, start, events).history, ip);
    assert Ordered(h) by {
      RunKeepsSame(l, k, start, events, ip);
    }
    PruningRefinesHistory(l, k, start, events, ip, now);
    LastOnesRecent(h, l.max, now, l.window);
  }

  /** A lockout ends: no address is locked out a whole window after the last event. */
  lemma LockoutEnds(l: Limits, k: nat, start: real, events: seq<Event>, ip: string, now: real)
    requires l.max > 0 && l.window >= 0.0 && AllEnabled(l, k, start, events)
    requires Run(l, start, events).clock + l.window <= now
    ensures !Locked(l, Run(l, start, events).attempts, ip, now)
  {
    RunKeepsSame(l, k, start, events, ip);
    LockedIff(l, k, start, events, ip, now);
  }

  // ---- How many failures fit in a window ----

  function Within(ts: seq<real>, from: real, window: real): nat {
    if ts == [] then 0
    else
      var t := ts[|ts| - 1];
      Within(ts[..|ts| - 1], from, window) + if from <= t < from + window then 1 else 0
  }

  /** All windows of the limiter's length hold at most n failures. */
  ghost predicate AtMost(ts: seq<real>, window: real, n: int) {
    forall from: real :: Within(ts, from, window) <= n
  }

  lemma {:induction false} WithinRecent(ts: seq<real>, from: real, now: real, window: real)
    requires from <= now < from + window
    ensures Within(ts, from, window) <= |Recent(ts, now, window)|
  {
    if ts != [] {
      WithinRecent(ts[..|ts| - 1], from, now, window);
    }
  }

  ghost predicate Bounded(l: Limits, k: nat, s: State, ip: string) {
    && 0 <= Flying(s, ip) <= k
    && |Recent(Get(s.history, ip), s.clock, l.window)| + Flying(s, ip) <= l.max - 1 + k
    && AtMost(Get(s.history, ip), l.window, l.max - 1 + k)
  }

  lemma RecordKeepsAtMost(h: seq<real>, window: real, now: real, n: int)
    requires AtMost(h, window, n) && |Recent(h, now, window)| + 1 <= n
    ensures AtMost(h + [now], window, n)
  {
    forall from: real ensures Within(h + [now], from, window) <= n {
      assert (h + [now])[..|h|] == h;
      if from <= now < from + window {
        WithinRecent(h, from, now, window);
      } else {
        assert Within(h, from, window) <= n;
      }
    }
  }

  lemma StepKeepsBounded(l: Limits, k: nat, s: State, e: Event, ip: string)
    requires l.max > 0 && Enabled(k, s, e) && Bounded(l, k, s, ip)
    requires SameFrom(l, Get(s.attempts, ip), Get(s.history, ip), s.clock)
    ensures Bounded(l, k, Step(l, s, e), ip)
  {
    var h := Get(s.history, ip);
    if e.Check? || e.Fail? {
      RecentShrinks(h, s.clock, e.now, l.window);
    }
    if e.Fail? && e.ip == ip {
      RecordKeepsAtMost(h, l.window, e.now, l.max - 1 + k);
      RecentSnoc(h, e.now, e.now, l.window);
    }
  }

  lemma {:induction false} RunBounded(l: Limits, k: nat, start: real, events: seq<Event>, ip: string)
    requires l.max > 0 && AllEnabled(l, k, start, events)
    ensures Bounded(l, k, Run(l, start, events), ip)
  {
    if events != [] {
      var front := events[..|events| - 1];
      RunBounded(l, k, start, front, ip);
      RunKeepsSame(l, k, start, front, ip);
      StepKeepsBounded(l, k, Run(l, start, front), events[|events| - 1], ip);
    }
  }

  /** With at most k requests of an address in flight at a time, at most max - 1 + k of its
      failures since its last success lie in any window. */
  lemma FailuresPerWindow(l: Limits, k: nat, start: real, events: seq<Event>, ip: string, from: real)
    requires l.max > 0 && AllEnabled(l, k, start, events)
    ensures Within(Get(Run(l, start, events).history, ip), from, l.window) <= l.max - 1 + k
  {
    RunBounded(l, k, start, events, ip);
  }

  /** Requests one after the other fail at most five times a minute, or five times in five
      minutes at the second step. */
  lemma SequentialLimits(start: real, events: seq<Event>, ip: string, from: real)
    ensures AllEnabled(LOGIN, 1, start, events) ==>
              Within(Get(Run(LOGIN, start, events).history, ip), from, 60.0) <= 5
    ensures AllEnabled(MFA, 1, start, events) ==>
              Within(Get(Run(MFA, start, events).history, ip), from, 300.0) <= 5
  {
    if AllEnabled(LOGIN, 1, start, events) {
      FailuresPerWindow(LOGIN, 1, start, events, ip, from);
    }
    if AllEnabled(MFA, 1, start, events) {
      FailuresPerWindow(MFA, 1, start, events, ip, from);
    }
  }

  // ---- The bound is reached ----

  function Times(t: real, n: nat): seq<real> {
    seq(n, i => t)
  }

  /** The state after requests of one address at one instant: n failures and f in flight. */
  ghost predicate Instant(l: Limits, k: nat, t: real, events: seq<Event>, ip: string, n: nat, f: nat) {
    var s := Run(l, t, events);
    && AllEnabled(l, k, t, events) && s.clock == t && Flying(s, ip) == f
    && Get(s.attempts, ip) == Times(t, n) == Get(s.history, ip)
  }

  lemma TimesRecent(l: Limits, t: real, n: nat)
    requires l.window > 0.0
    ensures Recent(Times(t, n), t, l.window) == Times(t, n) && Within(Times(t, n), t, l.window) == n
    ensures Times(t, n) + [t] == Times(t, n + 1)
  {
    AllRecent(Times(t, n), t, l.window);
    WithinTimes(t, n, l.window);
  }

  lemma {:induction false} WithinTimes(t: real, n: nat, window: real)
    requires window > 0.0
    ensures Within(Times(t, n), t, window) == n
  {
    if n > 0 {
      WithinTimes(t, n - 1, window);
      assert Times(t, n)[..n - 1] == Times(t, n - 1);
    }
  }

  lemma Snoc(l: Limits, k: nat, t: real, events: seq<Event>, e: Event)
    requires AllEnabled(l, k, t, events) && Enabled(k, Run(l, t, events), e)
    ensures AllEnabled(l, k, t, events + [e]) && Run(l, t, events + [e]) == Step(l, Run(l, t, events), e)
  {
    assert (events + [e])[..|events|] == events;
  }

  /** One more request passes the check. */
  lemma OneChecks(l: Limits, k: nat, t: real, events: seq<Event>, ip: string, n: nat, f: nat)
    requires l.window > 0.0 && n < l.max && f < k && Instant(l, k, t, events, ip, n, f)
    ensures Instant(l, k, t, events + [Check(ip, t)], ip, n, f + 1)
  {
    TimesRecent(l, t, n);
    Snoc(l, k, t, events, Check(ip, t));
  }

  lemma OneFails(l: Limits, k: nat, t: real, events: seq<Event>, ip: string, n: nat, f: nat)
    requires l.window > 0.0 && f > 0 && Instant(l, k, t, events, ip, n, f)
    ensures Instant(l, k, t, events + [Fail(ip, t)], ip, n + 1, f - 1)
  {
    TimesRecent(l, t, n);
    Snoc(l, k, t, events, Fail(ip, t));
  }

  /** n failures one after the other. */
  lemma {:induction false} OneByOne(l: Limits, k: nat, t: real, ip: string, n: nat) returns (events: seq<Event>)
    requires l.window > 0.0 && n <= l.max && k > 0
    ensures Instant(l, k, t, events, ip, n, 0)
  {
    events := [];
    if n > 0 {
      events := OneByOne(l, k, t, ip, n - 1);
      OneChecks(l, k, t, events, ip, n - 1, 0);
      events := events + [Check(ip, t)];
      OneFails(l, k, t, events, ip, n - 1, 1);
      events := events + [Fail(ip, t)];
    }
  }

  lemma {:induction false} Together(l: Limits, k: nat, t: real, ip: string, n: nat, f: nat) returns (events: seq<Event>)
    requires l.window > 0.0 && n < l.max && f <= k && k > 0
    ensures Instant(l, k, t, events, ip, n, f)
  {
    if f == 0 {
      events := OneByOne(l, k, t, ip, n);
    } else {
      events := Together(l, k, t, ip, n, f - 1);
      OneChecks(l, k, t, events, ip, n, f - 1);
      events := events + [Check(ip, t)];
    }
  }

  lemma {:induction false} AllFail(l: Limits, k: nat, t: real, ip: string, n: nat, f: nat) returns (events: seq<Event>)
    requires l.window > 0.0 && n < l.max && f <= k && k > 0
    ensures Instant(l, k, t, events, ip, n + f, k - f)
  {
    if f == 0 {
      events := Together(l, k, t, ip, n, k);
    } else {
      events := AllFail(l, k, t, ip, n, f - 1);
      OneFails(l, k, t, events, ip, n + f - 1, k - f + 1);
      events := events + [Fail(ip, t)];
    }
  }

  /** No smaller bound holds: k requests that pass the check together after max - 1 failures can
      all fail. */
  lemma BoundIsReached(l: Limits, k: nat, t: real, ip: string)
    requires l.window > 0.0 && l.max > 0 && k > 0
    ensures exists events: seq<Event> ::
              && AllEnabled(l, k, t, events)
              && Within(Get(Run(l, t, events).history, ip), t, l.window) == l.max - 1 + k
  {
    var events := AllFail(l, k, t, ip, l.max - 1, k);
    TimesRecent(l, t, l.max - 1 + k);
  }
}
