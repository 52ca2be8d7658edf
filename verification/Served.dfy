/** A server that takes one request after the other, with both limiters of web/auth.py: which
    logins and second steps it answers as limited. */
module Served {
  import opened Sessions
  import opened Wrappers
  import Limiter
  import Mfa

  /** A request with the session it presents, the client's address, and the clock at the limiter's
      check and at the end. */
  datatype Visit = Visit(from: int, ip: string, checkedAt: real, finishedAt: real, request: Request)

  /** The request with the limiter's answer. */
  function WithAnswer(r: Request, limited: bool): Request {
    if r.LogIn? || r.Verify? then r.(limited := limited) else r
  }

  // ---- One limiter ----

  /** What a limiter is told of one try: the check, and unless it is locked out a failure, or a
      success that clears the address. */
  function Try(limited: bool, ip: string, checkedAt: real, finishedAt: real, passed: bool): seq<Limiter.Event> {
    if limited then [Limiter.Check(ip, checkedAt)]
    else [Limiter.Check(ip, checkedAt), if passed then Limiter.Succeed(ip) else Limiter.Fail(ip, finishedAt)]
  }

  /** The attempts after it. */
  function Tried(l: Limiter.Limits, a: Limiter.Attempts, ip: string, checkedAt: real, finishedAt: real, passed: bool)
    : Limiter.Attempts
  {
    var checked := Limiter.Checked(l, a, ip, checkedAt);
    if Limiter.Locked(l, a, ip, checkedAt) then checked
    else if passed then Limiter.Cleared(checked, ip)
    else Limiter.Recorded(l, checked, ip, finishedAt)
  }

  function Attempts(l: Limiter.Limits, start: real, events: seq<Limiter.Event>): Limiter.Attempts {
    Limiter.Run(l, start, events).attempts
  }

  lemma RunTwo(l: Limiter.Limits, start: real, events: seq<Limiter.Event>, e: Limiter.Event, f: Limiter.Event)
    ensures Limiter.Run(l, start, events + [e]) == Limiter.Step(l, Limiter.Run(l, start, events), e)
    ensures Limiter.Run(l, start, events + [e, f]) == Limiter.Step(l, Limiter.Run(l, start, events + [e]), f)
  {
    assert (events + [e])[..|events|] == events;
    assert (events + [e, f])[..|events| + 1] == events + [e];
  }

  lemma TryRuns(l: Limiter.Limits, start: real, events: seq<Limiter.Event>, ip: string, checkedAt: real, finishedAt: real,
                passed: bool)
    ensures var limited := Limiter.Locked(l, Attempts(l, start, events), ip, checkedAt);
            Attempts(l, start, events + Try(limited, ip, checkedAt, finishedAt, passed))
            == Tried(l, Attempts(l, start, events), ip, checkedAt, finishedAt, passed)
  {
    RunTwo(l, start, events, Limiter.Check(ip, checkedAt), if passed then Limiter.Succeed(ip) else Limiter.Fail(ip, finishedAt));
  }

  // ---- The server ----

  /** The sessions and tables, the requests with the limiters' answers, and what each limiter was
      told. */
  datatype Service = Service(
    state: State, seen: seq<Event>, login: seq<Limiter.Event>, second: seq<Limiter.Event>)

  /** The session that a visit presents. */
  function PresentedBy(s: Service, v: Visit): Session {
    Presented(s.state, Event(v.from, v.request))
  }

  /** The limiter's answer to a visit: the first limiter answers logins, the second one second
      steps of a session that waits for one. */
  function Answer(start: real, s: Service, v: Visit): bool {
    if v.request.LogIn? then Limiter.Locked(Limiter.LOGIN, Attempts(Limiter.LOGIN, start, s.login), v.ip, v.checkedAt)
    else if v.request.Verify? && PresentedBy(s, v).pending.Some? then
      Limiter.Locked(Limiter.MFA, Attempts(Limiter.MFA, start, s.second), v.ip, v.checkedAt)
    else false
  }

  function LoginTold(v: Visit, limited: bool): seq<Limiter.Event> {
    if v.request.LogIn? then Try(limited, v.ip, v.checkedAt, v.finishedAt, v.request.user.Some?) else []
  }

  function SecondTold(c: Mfa.Crypto, s: Service, v: Visit, limited: bool): seq<Limiter.Event> {
    var presented := PresentedBy(s, v);
    if v.request.Verify? && presented.pending.Some? then
      Try(limited, v.ip, v.checkedAt, v.finishedAt,
          Verified(c, s.state.server.tables, presented.pending.value, v.request.recovery, v.request.code, v.request.at))
    else []
  }

  function Visited(c: Mfa.Crypto, start: real, s: Service, v: Visit): Service {
    var limited := Answer(start, s, v);
    var e := Event(v.from, WithAnswer(v.request, limited));
    Service(Step(c, s.state, e), s.seen + [e], s.login + LoginTold(v, limited), s.second + SecondTold(c, s, v, limited))
  }

  const FRESH := Service(State(Server(Mfa.EMPTY, {}), []), [], [], [])

  function ServeAll(c: Mfa.Crypto, start: real, visits: seq<Visit>): Service {
    if visits == [] then FRESH else Visited(c, start, ServeAll(c, start, visits[..|visits| - 1]), visits[|visits| - 1])
  }

  /** The sessions are those of a run. */
  lemma {:induction false} ServedIsRun(c: Mfa.Crypto, start: real, visits: seq<Visit>)
    ensures var s := ServeAll(c, start, visits); s.state == Run(c, s.seen) && |s.seen| == |s.state.issued| == |visits|
  {
    if visits != [] {
      ServedIsRun(c, start, visits[..|visits| - 1]);
      var s := ServeAll(c, start, visits);
      assert s.seen[..|s.seen| - 1] == ServeAll(c, start, visits[..|visits| - 1]).seen;
    }
  }

  lemma ServedFront(c: Mfa.Crypto, start: real, visits: seq<Visit>)
    requires visits != []
    ensures var s, t := ServeAll(c, start, visits), ServeAll(c, start, visits[..|visits| - 1]);
            && |s.seen| == |s.state.issued| == |visits| && |t.seen| == |t.state.issued| == |visits| - 1
            && s.seen == t.seen + [s.seen[|visits| - 1]] && s.state.issued == t.state.issued + [s.state.issued[|visits| - 1]]
  {
    ServedIsRun(c, start, visits);
    ServedIsRun(c, start, visits[..|visits| - 1]);
  }

  /** t has the first n events and sessions of s. */
  predicate Begins(s: Service, t: Service, n: nat) {
    && |s.seen| == |s.state.issued| >= n && |t.seen| == |t.state.issued| == n
    && s.seen[..n] == t.seen && s.state.issued[..n] == t.state.issued
  }

  lemma BeginsSelf(s: Service, n: nat)
    requires |s.seen| == |s.state.issued| == n
    ensures Begins(s, s, n)
  {
    assert s.seen[..n] == s.seen && s.state.issued[..n] == s.state.issued;
  }

  lemma BeginsLonger(s: Service, f: Service, t: Service, n: nat)
    requires Begins(f, t, n) && |s.seen| == |s.state.issued| == |f.seen| + 1
    requires s.seen == f.seen + [s.seen[|f.seen|]] && s.state.issued == f.state.issued + [s.state.issued[|f.seen|]]
    ensures Begins(s, t, n)
  {
    assert s.seen[..n] == f.seen[..n] && s.state.issued[..n] == f.state.issued[..n];
  }

  /** Earlier answers and sessions stay as they were. */
  lemma {:induction false} ServedStays(c: Mfa.Crypto, start: real, visits: seq<Visit>, n: nat)
    requires n <= |visits|
    ensures Begins(ServeAll(c, start, visits), ServeAll(c, start, visits[..n]), n)
    ensures |ServeAll(c, start, visits).seen| == |visits|
  {
    if n == |visits| {
      ServedIsRun(c, start, visits);
      assert visits[..n] == visits;
      BeginsSelf(ServeAll(c, start, visits), n);
    } else {
      var front := visits[..|visits| - 1];
      assert front[..n] == visits[..n];
      ServedStays(c, start, front, n);
      ServedFront(c, start, visits);
      BeginsLonger(ServeAll(c, start, visits), ServeAll(c, start, front), ServeAll(c, start, visits[..n]), n);
    }
  }

  // ---- Counting failures, without a limiter ----

  datatype Outcome = Other | Failed | Passed

  datatype Mark = Mark(ip: string, at: real, outcome: Outcome)

  /** The failures of an address among the first n marks, since its last success, that are less
      than the window old. */
  function Failures(marks: seq<Mark>, n: nat, ip: string, now: real, window: real): nat
    requires n <= |marks|
  {
    if n == 0 then 0
    else
      var before, m := Failures(marks, n - 1, ip, now, window), marks[n - 1];
      if m.ip != ip || m.outcome == Other then before
      else if m.outcome == Passed then 0
      else before + if now - m.at < window then 1 else 0
  }

  /** A login that was let through fails without a user and passes with one. */
  function LoginMark(v: Visit, e: Event): Mark {
    Mark(v.ip, v.finishedAt,
         if !e.request.LogIn? || e.request.limited then Other else if e.request.user.None? then Failed else Passed)
  }

  function LoginMarks(visits: seq<Visit>, seen: seq<Event>): seq<Mark>
    requires |seen| == |visits|
  {
    seq(|visits|, i requires 0 <= i < |visits| => LoginMark(visits[i], seen[i]))
  }

  /** A second step that was let through for a waiting session fails when its reply still waits. */
  function SecondMark(v: Visit, e: Event, waited: bool, reply: Session): Mark {
    Mark(v.ip, v.finishedAt,
         if !e.request.Verify? || e.request.limited || !waited then Other else if reply.pending.Some? then Failed else Passed)
  }

  function SecondMarks(visits: seq<Visit>, seen: seq<Event>, issued: seq<Session>): seq<Mark>
    requires |seen| == |issued| == |visits|
  {
    seq(|visits|, i requires 0 <= i < |visits| =>
      SecondMark(visits[i], seen[i], 0 <= visits[i].from < i && issued[visits[i].from].pending.Some?, issued[i]))
  }

  lemma {:induction false} FailuresPrefix(a: seq<Mark>, b: seq<Mark>, n: nat, ip: string, now: real, window: real)
    requires n <= |a| && n <= |b| && a[..n] == b[..n]
    ensures Failures(a, n, ip, now, window) == Failures(b, n, ip, now, window)
  {
    if n > 0 {
      assert a[..n - 1] == a[..n][..n - 1] == b[..n - 1];
      assert a[n - 1] == a[..n][n - 1] == b[n - 1];
      FailuresPrefix(a, b, n - 1, ip, now, window);
    }
  }

  lemma {:induction false} FailuresAtMost(marks: seq<Mark>, n: nat, ip: string, now: real, window: real)
    requires n <= |marks|
    ensures Failures(marks, n, ip, now, window) <= n
  {
    if n > 0 {
      FailuresAtMost(marks, n - 1, ip, now, window);
    }
  }

  // ---- The limiter counts the same ----

  ghost predicate CountsAt(l: Limiter.Limits, a: Limiter.Attempts, marks: seq<Mark>, ip: string, now: real) {
    |Limiter.Recent(Limiter.Get(a, ip), now, l.window)| == Failures(marks, |marks|, ip, now, l.window)
  }

  /** What one limiter was told amounts to the marks: it is consistent with one try at a time, and
      it counts the failures. */
  ghost predicate Counts(l: Limiter.Limits, start: real, events: seq<Limiter.Event>, marks: seq<Mark>, clock: real) {
    var s := Limiter.Run(l, start, events);
    && Limiter.AllEnabled(l, 1, start, events) && s.clock <= clock
    && NoneFlying(s)
    && forall ip: string, now: real | clock <= now :: CountsAt(l, s.attempts, marks, ip, now)
  }

  ghost predicate NoneFlying(s: Limiter.State) {
    forall ip: string :: Limiter.Flying(s, ip) == 0
  }

  lemma CheckFlies(l: Limiter.Limits, s: Limiter.State, ip: string, t: real, passed: bool, f: real)
    requires NoneFlying(s) && s.clock <= t <= f
    ensures var mid := Limiter.Step(l, s, Limiter.Check(ip, t));
            var end := Limiter.Step(l, mid, if passed then Limiter.Succeed(ip) else Limiter.Fail(ip, f));
            && Limiter.Enabled(1, s, Limiter.Check(ip, t)) && mid.clock == t
            && (Limiter.Locked(l, s.attempts, ip, t) ==> NoneFlying(mid))
            && (!Limiter.Locked(l, s.attempts, ip, t) ==>
                  Limiter.Enabled(1, mid, if passed then Limiter.Succeed(ip) else Limiter.Fail(ip, f))
                  && NoneFlying(end) && end.clock <= f)
  {
    var mid := Limiter.Step(l, s, Limiter.Check(ip, t));
    var end := Limiter.Step(l, mid, if passed then Limiter.Succeed(ip) else Limiter.Fail(ip, f));
    forall x: string ensures Limiter.Flying(mid, x) == if x == ip && !Limiter.Locked(l, s.attempts, ip, t) then 1 else 0 {
      assert Limiter.Flying(s, x) == 0;
    }
    if !Limiter.Locked(l, s.attempts, ip, t) {
      forall x: string ensures Limiter.Flying(end, x) == 0 {
        assert Limiter.Flying(mid, x) == if x == ip then 1 else 0;
      }
    }
  }

  lemma TryEnabled(l: Limiter.Limits, start: real, events: seq<Limiter.Event>, ip: string, checkedAt: real,
                   finishedAt: real, passed: bool)
    requires Limiter.AllEnabled(l, 1, start, events) && Limiter.Run(l, start, events).clock <= checkedAt <= finishedAt
    requires NoneFlying(Limiter.Run(l, start, events))
    ensures var limited := Limiter.Locked(l, Attempts(l, start, events), ip, checkedAt);
            var after := events + Try(limited, ip, checkedAt, finishedAt, passed);
            && Limiter.AllEnabled(l, 1, start, after) && Limiter.Run(l, start, after).clock <= finishedAt
            && NoneFlying(Limiter.Run(l, start, after))
  {
    var check, answer := Limiter.Check(ip, checkedAt), if passed then Limiter.Succeed(ip) else Limiter.Fail(ip, finishedAt);
    CheckFlies(l, Limiter.Run(l, start, events), ip, checkedAt, passed, finishedAt);
    Limiter.Snoc(l, 1, start, events, check);
    if !Limiter.Locked(l, Attempts(l, start, events), ip, checkedAt) {
      Limiter.Snoc(l, 1, start, events + [check], answer);
      assert events + [check] + [answer] == events + [check, answer];
    }
  }

  /** The list of one address after a try. */
  lemma TriedList(l: Limiter.Limits, a: Limiter.Attempts, ip: string, t: real, f: real, passed: bool, x: string, now: real)
    requires t <= f <= now
    ensures var before := Limiter.Recent(Limiter.Get(a, x), now, l.window);
            Limiter.Recent(Limiter.Get(Tried(l, a, ip, t, f, passed), x), now, l.window) ==
            if x != ip || Limiter.Locked(l, a, ip, t) then before
            else if passed then []
            else if now - f < l.window then before + [f] else before
  {
    var own := Limiter.Get(a, ip);
    if x == ip {
      var checked := Limiter.Recent(own, t, l.window);
      Limiter.RecentTwice(own, t, now, l.window);
      if !Limiter.Locked(l, a, ip, t) && !passed {
        Limiter.RecentTwice(checked, f, now, l.window);
        Limiter.RecentSnoc(Limiter.Recent(checked, f, l.window), f, now, l.window);
        assert Limiter.Get(Tried(l, a, ip, t, f, passed), ip) == Limiter.Recent(checked, f, l.window) + [f];
      }
    }
  }

  lemma FailuresSnoc(marks: seq<Mark>, m: Mark, ip: string, now: real, window: real)
    ensures var before := Failures(marks, |marks|, ip, now, window);
            Failures(marks + [m], |marks| + 1, ip, now, window) ==
            if m.ip != ip || m.outcome == Other then before
            else if m.outcome == Passed then 0
            else before + if now - m.at < window then 1 else 0
  {
    FailuresPrefix(marks, marks + [m], |marks|, ip, now, window);
  }

  lemma TryCountsAt(l: Limiter.Limits, a: Limiter.Attempts, marks: seq<Mark>, ip: string, t: real, f: real, passed: bool,
                    m: Mark, x: string, now: real)
    requires CountsAt(l, a, marks, x, now) && t <= f <= now
    requires m == Mark(ip, f, if Limiter.Locked(l, a, ip, t) then Other else if passed then Passed else Failed)
    ensures CountsAt(l, Tried(l, a, ip, t, f, passed), marks + [m], x, now)
  {
    TriedList(l, a, ip, t, f, passed, x, now);
    FailuresSnoc(marks, m, x, now, l.window);
  }

  /** One more try, with its mark. */
  lemma TryCounts(l: Limiter.Limits, start: real, events: seq<Limiter.Event>, marks: seq<Mark>, clock: real, ip: string,
                  t: real, f: real, passed: bool, m: Mark)
    requires Counts(l, start, events, marks, clock) && clock <= t <= f
    requires var limited := Limiter.Locked(l, Attempts(l, start, events), ip, t);
             m == Mark(ip, f, if limited then Other else if passed then Passed else Failed)
    ensures var limited := Limiter.Locked(l, Attempts(l, start, events), ip, t);
            Counts(l, start, events + Try(limited, ip, t, f, passed), marks + [m], f)
  {
    var a := Attempts(l, start, events);
    var after := events + Try(Limiter.Locked(l, a, ip, t), ip, t, f, passed);
    TryEnabled(l, start, events, ip, t, f, passed);
    TryRuns(l, start, events, ip, t, f, passed);
    forall x: string, now: real | f <= now ensures CountsAt(l, Attempts(l, start, after), marks + [m], x, now) {
      assert CountsAt(l, a, marks, x, now);
      TryCountsAt(l, a, marks, ip, t, f, passed, m, x, now);
    }
  }

  lemma OtherCounts(l: Limiter.Limits, start: real, events: seq<Limiter.Event>, marks: seq<Mark>, clock: real, m: Mark,
                    later: real)
    requires Counts(l, start, events, marks, clock) && clock <= later && m.outcome == Other
    ensures Counts(l, start, events, marks + [m], later)
  {
    var a := Attempts(l, start, events);
    forall x: string, now: real | later <= now ensures CountsAt(l, a, marks + [m], x, now) {
      assert CountsAt(l, a, marks, x, now);
      FailuresSnoc(marks, m, x, now, l.window);
    }
  }

  /** A clock that does not go back, from visit to visit and within one. */
  ghost predicate Forward(start: real, visits: seq<Visit>) {
    && (forall i | 0 <= i < |visits| :: start <= visits[i].checkedAt <= visits[i].finishedAt)
    && forall i, j | 0 <= i < j < |visits| :: visits[i].finishedAt <= visits[j].checkedAt
  }

  function Clock(start: real, visits: seq<Visit>): real {
    if visits == [] then start else visits[|visits| - 1].finishedAt
  }

  lemma LoginStepCounts(c: Mfa.Crypto, start: real, s: Service, v: Visit, marks: seq<Mark>, clock: real)
    requires Counts(Limiter.LOGIN, start, s.login, marks, clock) && clock <= v.checkedAt <= v.finishedAt
    ensures var t := Visited(c, start, s, v);
            Counts(Limiter.LOGIN, start, t.login, marks + [LoginMark(v, t.seen[|s.seen|])], v.finishedAt)
  {
    var t := Visited(c, start, s, v);
    var m := LoginMark(v, t.seen[|s.seen|]);
    if v.request.LogIn? {
      TryCounts(Limiter.LOGIN, start, s.login, marks, clock, v.ip, v.checkedAt, v.finishedAt, v.request.user.Some?, m);
    } else {
      OtherCounts(Limiter.LOGIN, start, s.login, marks, clock, m, v.finishedAt);
      assert t.login == s.login;
    }
  }

  /** The reply to a second step still waits exactly when the factor was not accepted. */
  lemma ReplyWaits(c: Mfa.Crypto, v: Server, s: Session, r: Request)
    requires r.Verify? && s.pending.Some? && !r.limited
    ensures Handle(c, v, s, r).session.pending.Some? <==> !Verified(c, v.tables, s.pending.value, r.recovery, r.code, r.at)
  {
  }

  lemma SecondStepCounts(c: Mfa.Crypto, start: real, s: Service, v: Visit, marks: seq<Mark>, clock: real)
    requires Counts(Limiter.MFA, start, s.second, marks, clock) && clock <= v.checkedAt <= v.finishedAt
    ensures var t := Visited(c, start, s, v);
            Counts(Limiter.MFA, start, t.second,
                   marks + [SecondMark(v, t.seen[|s.seen|], PresentedBy(s, v).pending.Some?, t.state.issued[|s.state.issued|])],
                   v.finishedAt)
  {
    var t, presented := Visited(c, start, s, v), PresentedBy(s, v);
    var e := t.seen[|s.seen|];
    var m := SecondMark(v, e, presented.pending.Some?, t.state.issued[|s.state.issued|]);
    if v.request.Verify? && presented.pending.Some? {
      assert Presented(s.state, e) == presented;
      var passed := Verified(c, s.state.server.tables, presented.pending.value, v.request.recovery, v.request.code, v.request.at);
      if !e.request.limited {
        ReplyWaits(c, s.state.server, presented, e.request);
      }
      TryCounts(Limiter.MFA, start, s.second, marks, clock, v.ip, v.checkedAt, v.finishedAt, passed, m);
    } else {
      OtherCounts(Limiter.MFA, start, s.second, marks, clock, m, v.finishedAt);
      assert t.second == s.second;
    }
  }

  lemma FreshCounts(l: Limiter.Limits, start: real)
    ensures Counts(l, start, [], [], start)
  {
  }

  lemma LoginMarksSnoc(visits: seq<Visit>, seen: seq<Event>)
    requires |seen| == |visits| > 0
    ensures var n := |visits| - 1;
            LoginMarks(visits, seen) == LoginMarks(visits[..n], seen[..n]) + [LoginMark(visits[n], seen[n])]
  {
  }

  lemma {:induction false} LoginCounts(c: Mfa.Crypto, start: real, visits: seq<Visit>)
    requires Forward(start, visits)
    ensures |ServeAll(c, start, visits).seen| == |visits|
    ensures var s := ServeAll(c, start, visits);
            Counts(Limiter.LOGIN, start, s.login, LoginMarks(visits, s.seen), Clock(start, visits))
  {
    ServedIsRun(c, start, visits);
    if visits == [] {
      FreshCounts(Limiter.LOGIN, start);
    } else {
      var n := |visits| - 1;
      var front, v := visits[..n], visits[n];
      var before, s := ServeAll(c, start, front), ServeAll(c, start, visits);
      LoginCounts(c, start, front);
      ServedFront(c, start, visits);
      LoginMarksSnoc(visits, s.seen);
      assert s.seen[..n] == before.seen;
      LoginStepCounts(c, start, before, v, LoginMarks(front, before.seen), Clock(start, front));
    }
  }

  lemma SecondMarkAt(visits: seq<Visit>, seen: seq<Event>, issued: seq<Session>, n: nat, i: nat)
    requires |seen| == |issued| == |visits| && i < n <= |visits|
    ensures SecondMarks(visits, seen, issued)[i] == SecondMarks(visits[..n], seen[..n], issued[..n])[i]
  {
    if 0 <= visits[i].from < i {
      assert issued[..n][visits[i].from] == issued[visits[i].from];
    }
  }

  lemma SecondMarksPrefix(visits: seq<Visit>, seen: seq<Event>, issued: seq<Session>, n: nat)
    requires |seen| == |issued| == |visits| && n <= |visits|
    ensures SecondMarks(visits, seen, issued)[..n] == SecondMarks(visits[..n], seen[..n], issued[..n])
  {
    var all, some := SecondMarks(visits, seen, issued), SecondMarks(visits[..n], seen[..n], issued[..n]);
    forall i | 0 <= i < n ensures all[i] == some[i] {
      SecondMarkAt(visits, seen, issued, n, i);
    }
  }

  lemma SecondMarksSnoc(visits: seq<Visit>, seen: seq<Event>, issued: seq<Session>, waited: bool)
    requires |seen| == |issued| == |visits| > 0
    requires var v := visits[|visits| - 1]; waited <==> 0 <= v.from < |visits| - 1 && issued[v.from].pending.Some?
    ensures var n := |visits| - 1;
            SecondMarks(visits, seen, issued)
            == SecondMarks(visits[..n], seen[..n], issued[..n]) + [SecondMark(visits[n], seen[n], waited, issued[n])]
  {
    var n := |visits| - 1;
    var all := SecondMarks(visits, seen, issued);
    SecondMarksPrefix(visits, seen, issued, n);
    assert all == all[..n] + [all[n]];
  }

  lemma ServedMarks(c: Mfa.Crypto, start: real, visits: seq<Visit>)
    requires visits != []
    ensures var n := |visits| - 1;
            var s, before := ServeAll(c, start, visits), ServeAll(c, start, visits[..n]);
            && |s.seen| == |s.state.issued| == n + 1 && |before.seen| == |before.state.issued| == n
            && s == Visited(c, start, before, visits[n])
            && SecondMarks(visits, s.seen, s.state.issued)
            == SecondMarks(visits[..n], before.seen, before.state.issued)
               + [SecondMark(visits[n], s.seen[n], PresentedBy(before, visits[n]).pending.Some?, s.state.issued[n])]
  {
    var n := |visits| - 1;
    var s, before := ServeAll(c, start, visits), ServeAll(c, start, visits[..n]);
    ServedFront(c, start, visits);
    assert s.seen[..n] == before.seen && s.state.issued[..n] == before.state.issued;
    SecondMarksSnoc(visits, s.seen, s.state.issued, PresentedBy(before, visits[n]).pending.Some?);
  }

  lemma {:induction false} SecondCounts(c: Mfa.Crypto, start: real, visits: seq<Visit>)
    requires Forward(start, visits)
    ensures var s := ServeAll(c, start, visits); |s.seen| == |s.state.issued| == |visits|
    ensures var s := ServeAll(c, start, visits);
            Counts(Limiter.MFA, start, s.second, SecondMarks(visits, s.seen, s.state.issued), Clock(start, visits))
  {
    ServedIsRun(c, start, visits);
    if visits == [] {
      FreshCounts(Limiter.MFA, start);
    } else {
      var n := |visits| - 1;
      var front, v := visits[..n], visits[n];
      var before, s := ServeAll(c, start, front), ServeAll(c, start, visits);
      SecondCounts(c, start, front);
      ServedMarks(c, start, visits);
      SecondStepCounts(c, start, before, v, SecondMarks(front, before.seen, before.state.issued), Clock(start, front));
    }
  }

  // ---- Who is answered as limited ----

  lemma ForwardPrefix(start: real, visits: seq<Visit>, j: nat)
    requires Forward(start, visits) && j < |visits|
    ensures Forward(start, visits[..j]) && Clock(start, visits[..j]) <= visits[j].checkedAt
  {
  }

  lemma LastAnswer(c: Mfa.Crypto, start: real, visits: seq<Visit>)
    requires visits != []
    ensures var s, before, v := ServeAll(c, start, visits), ServeAll(c, start, visits[..|visits| - 1]), visits[|visits| - 1];
            |s.seen| == |visits| && s.seen[|visits| - 1] == Event(v.from, WithAnswer(v.request, Answer(start, before, v)))
  {
    ServedIsRun(c, start, visits);
    ServedIsRun(c, start, visits[..|visits| - 1]);
  }

  /** The event of visit j carries the limiter's answer after the visits before it. */
  lemma AnswerOf(c: Mfa.Crypto, start: real, visits: seq<Visit>, j: nat)
    requires j < |visits|
    ensures var s, before := ServeAll(c, start, visits), ServeAll(c, start, visits[..j]);
            && |s.seen| == |visits| && s.seen[j] == Event(visits[j].from, WithAnswer(visits[j].request, Answer(start, before, visits[j])))
  {
    var upTo := visits[..j + 1];
    assert upTo[..j] == visits[..j] && upTo[j] == visits[j] && |upTo| == j + 1;
    LastAnswer(c, start, upTo);
    ServedStays(c, start, visits, j + 1);
    SameAt(ServeAll(c, start, visits).seen, ServeAll(c, start, upTo).seen, j);
  }

  lemma SameAt(a: seq<Event>, b: seq<Event>, j: nat)
    requires j < |a| && a[..j + 1] == b
    ensures a[j] == b[j]
  {
  }

  /** A login is answered as limited exactly when five logins of its address, let through since the
      last that succeeded, failed within the last sixty seconds. */
  lemma LoginLimitedIff(c: Mfa.Crypto, start: real, visits: seq<Visit>, j: nat)
    requires Forward(start, visits) && j < |visits| && visits[j].request.LogIn?
    ensures var s := ServeAll(c, start, visits);
            && |s.seen| == |visits| && s.seen[j].request.LogIn?
            && (s.seen[j].request.limited <==>
                  Failures(LoginMarks(visits, s.seen), j, visits[j].ip, visits[j].checkedAt, 60.0) >= 5)
  {
    var s, before, front := ServeAll(c, start, visits), ServeAll(c, start, visits[..j]), visits[..j];
    AnswerOf(c, start, visits, j);
    ForwardPrefix(start, visits, j);
    LoginCounts(c, start, front);
    ServedStays(c, start, visits, j);
    var all, some := LoginMarks(visits, s.seen), LoginMarks(front, before.seen);
    assert all[..j] == some by {
      forall i | 0 <= i < j ensures all[i] == some[i] {
        assert s.seen[i] == s.seen[..j][i];
      }
    }
    FailuresPrefix(all, some, j, visits[j].ip, visits[j].checkedAt, 60.0);
    assert CountsAt(Limiter.LOGIN, Attempts(Limiter.LOGIN, start, before.login), some, visits[j].ip, visits[j].checkedAt);
  }

  /** A second step of a waiting session is answered as limited exactly when five second steps of
      its address, let through since the last that succeeded, failed within the last 300 seconds. */
  lemma SecondLimitedIff(c: Mfa.Crypto, start: real, visits: seq<Visit>, j: nat)
    requires Forward(start, visits) && j < |visits| && visits[j].request.Verify?
    requires |ServeAll(c, start, visits).state.issued| == |visits|
    requires 0 <= visits[j].from < j && ServeAll(c, start, visits).state.issued[visits[j].from].pending.Some?
    ensures var s := ServeAll(c, start, visits);
            && |s.seen| == |visits| && s.seen[j].request.Verify?
            && (s.seen[j].request.limited <==>
                  Failures(SecondMarks(visits, s.seen, s.state.issued), j, visits[j].ip, visits[j].checkedAt, 300.0) >= 5)
  {
    var s, before, front := ServeAll(c, start, visits), ServeAll(c, start, visits[..j]), visits[..j];
    AnswerOf(c, start, visits, j);
    ForwardPrefix(start, visits, j);
    SecondCounts(c, start, front);
    ServedStays(c, start, visits, j);
    assert before.state.issued[visits[j].from] == s.state.issued[..j][visits[j].from];
    var all, some := SecondMarks(visits, s.seen, s.state.issued), SecondMarks(front, before.seen, before.state.issued);
    SecondMarksPrefix(visits, s.seen, s.state.issued, j);
    FailuresPrefix(all, some, j, visits[j].ip, visits[j].checkedAt, 300.0);
    assert CountsAt(Limiter.MFA, Attempts(Limiter.MFA, start, before.second), some, visits[j].ip, visits[j].checkedAt);
  }

  /** Five failures of an address within the window, and no success of it since the first. */
  ghost predicate FiveFailures(marks: seq<Mark>, at: seq<nat>, j: nat, ip: string, now: real, window: real)
    requires j <= |marks|
  {
    && |at| == 5 && (forall a, b | 0 <= a < b < 5 :: at[a] < at[b]) && (forall a | 0 <= a < 5 :: at[a] < j)
    && (forall a | 0 <= a < 5 :: marks[at[a]].ip == ip && marks[at[a]].outcome == Failed && now - marks[at[a]].at < window)
    && forall i | at[0] <= i < j :: marks[i].ip == ip ==> marks[i].outcome != Passed
  }

  lemma {:induction false} FailuresSince(marks: seq<Mark>, at: seq<nat>, k: nat, n: nat, j: nat, ip: string, now: real, window: real)
    requires n <= j <= |marks| && k <= 5 && FiveFailures(marks, at, j, ip, now, window)
    requires k > 0 ==> at[k - 1] < n
    ensures Failures(marks, n, ip, now, window) >= k
    decreases n
  {
    if k > 0 {
      var m := marks[n - 1];
      assert at[0] <= n - 1 by {
        if k > 1 {
          assert at[0] < at[k - 1];
        }
      }
      if n - 1 == at[k - 1] {
        if k > 1 {
          assert at[k - 2] < at[k - 1];
        }
        FailuresSince(marks, at, k - 1, n - 1, j, ip, now, window);
      } else {
        FailuresSince(marks, at, k, n - 1, j, ip, now, window);
      }
    }
  }

  /** The sixth login of an address within sixty seconds, after five that were let through and
      failed and none that succeeded since, is answered as limited. */
  lemma SixthLoginLimited(c: Mfa.Crypto, start: real, visits: seq<Visit>, j: nat, at: seq<nat>)
    requires Forward(start, visits) && j < |visits| && visits[j].request.LogIn?
    requires |ServeAll(c, start, visits).seen| == |visits|
    requires FiveFailures(LoginMarks(visits, ServeAll(c, start, visits).seen), at, j, visits[j].ip, visits[j].checkedAt, 60.0)
    ensures ServeAll(c, start, visits).seen[j].request.LogIn? && ServeAll(c, start, visits).seen[j].request.limited
  {
    LoginLimitedIff(c, start, visits, j);
    FailuresSince(LoginMarks(visits, ServeAll(c, start, visits).seen), at, 5, j, j, visits[j].ip, visits[j].checkedAt, 60.0);
  }

  /** So is the sixth second step of a waiting session within 300 seconds. */
  lemma SixthSecondLimited(c: Mfa.Crypto, start: real, visits: seq<Visit>, j: nat, at: seq<nat>)
    requires Forward(start, visits) && j < |visits| && visits[j].request.Verify?
    requires var s := ServeAll(c, start, visits);
             && |s.seen| == |s.state.issued| == |visits|
             && 0 <= visits[j].from < j && s.state.issued[visits[j].from].pending.Some?
             && FiveFailures(SecondMarks(visits, s.seen, s.state.issued), at, j, visits[j].ip, visits[j].checkedAt, 300.0)
    ensures ServeAll(c, start, visits).seen[j].request.Verify? && ServeAll(c, start, visits).seen[j].request.limited
  {
    var s := ServeAll(c, start, visits);
    SecondLimitedIff(c, start, visits, j);
    FailuresSince(SecondMarks(visits, s.seen, s.state.issued), at, 5, j, j, visits[j].ip, visits[j].checkedAt, 300.0);
  }

  /** Guesses of one address in a row on a server that saw nothing before: the first five are let
      through, and every later one within sixty seconds of the first is answered as limited. */
  lemma {:induction false} GuessesInARow(c: Mfa.Crypto, start: real, visits: seq<Visit>, ip: string, j: nat)
    requires Forward(start, visits) && j < |visits| && Guesses(visits, ip)
    ensures |ServeAll(c, start, visits).seen| == |visits|
    ensures var r := ServeAll(c, start, visits).seen[j].request; r.LogIn? && (r.limited <==> j >= 5)
    decreases j
  {
    var s := ServeAll(c, start, visits);
    ServedIsRun(c, start, visits);
    LoginLimitedIff(c, start, visits, j);
    var marks := LoginMarks(visits, s.seen);
    if j < 5 {
      FailuresAtMost(marks, j, ip, visits[j].checkedAt, 60.0);
    } else {
      forall a | 0 <= a < 5 ensures !s.seen[a].request.LogIn? || !s.seen[a].request.limited {
        GuessesInARow(c, start, visits, ip, a);
      }
      LaterGuess(c, start, visits, ip, j);
    }
  }

  lemma LaterGuess(c: Mfa.Crypto, start: real, visits: seq<Visit>, ip: string, j: nat)
    requires Forward(start, visits) && 5 <= j < |visits| && Guesses(visits, ip)
    requires |ServeAll(c, start, visits).seen| == |visits|
    requires forall a | 0 <= a < 5 ::
               var e := ServeAll(c, start, visits).seen[a]; !e.request.LogIn? || !e.request.limited
    ensures var r := ServeAll(c, start, visits).seen[j].request; r.LogIn? && r.limited
  {
    var marks := LoginMarks(visits, ServeAll(c, start, visits).seen);
    forall i | 0 <= i < |visits|
      ensures marks[i].ip == ip && marks[i].at == visits[i].finishedAt && marks[i].outcome != Passed
      ensures i < 5 ==> marks[i].outcome == Failed
    {
      GuessMark(c, start, visits, ip, i);
    }
    FirstFive(marks, visits, ip, j);
    SixthLoginLimited(c, start, visits, j, [0, 1, 2, 3, 4]);
  }

  /** All visits are logins of one address that name no user, soon after the first. */
  predicate Guesses(visits: seq<Visit>, ip: string) {
    forall i | 0 <= i < |visits| ::
      && visits[i].ip == ip && visits[i].request.LogIn? && visits[i].request.user.None?
      && visits[i].checkedAt - visits[0].finishedAt < 60.0
  }

  lemma GuessMark(c: Mfa.Crypto, start: real, visits: seq<Visit>, ip: string, i: nat)
    requires Guesses(visits, ip) && i < |visits| && |ServeAll(c, start, visits).seen| == |visits|
    ensures var e := ServeAll(c, start, visits).seen[i];
            && e.request.LogIn?
            && LoginMarks(visits, ServeAll(c, start, visits).seen)[i]
               == Mark(ip, visits[i].finishedAt, if e.request.limited then Other else Failed)
  {
    AnswerOf(c, start, visits, i);
  }

  lemma FirstFive(marks: seq<Mark>, visits: seq<Visit>, ip: string, j: nat)
    requires |marks| == |visits| && 5 <= j < |visits| && Guesses(visits, ip)
    requires forall i, k | 0 <= i < k < |visits| :: visits[i].finishedAt <= visits[k].checkedAt
    requires forall i | 0 <= i < |visits| :: visits[i].checkedAt <= visits[i].finishedAt
    requires forall i | 0 <= i < |visits| :: marks[i].ip == ip && marks[i].at == visits[i].finishedAt
    requires forall a | 0 <= a < 5 :: marks[a].outcome == Failed
    requires forall i | 0 <= i < j :: marks[i].outcome != Passed
    ensures FiveFailures(marks, [0, 1, 2, 3, 4], j, ip, visits[j].checkedAt, 60.0)
  {
    var at: seq<nat> := [0, 1, 2, 3, 4];
    forall a | 0 <= a < 5 ensures at[a] == a && visits[j].checkedAt - marks[a].at < 60.0 {
      assert visits[0].finishedAt <= visits[a].finishedAt;
    }
  }
}
