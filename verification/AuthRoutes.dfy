/** The handlers of web/auth.py and web/routes/security.py that change a session object, a limiter
    or the tables of second factors. Every handler is proved to do what Sessions says of its
    request, and to change the limiters as Limiter says. */
module AuthRoutes {
  import opened MfaService
  import opened Served
  import opened Sessions
  import opened Wrappers
  import Limiter
  import Mfa

  /** request.session; None stands for a key that is not set. */
  class RequestSession {
    var userId: Option<int>
    var pending: Option<int>
    var setupRequired: bool
    var registerChallenge: Option<string>
    var authChallenge: Option<string>

    constructor (data: Session)
      ensures Data() == data
    {
      userId, pending, setupRequired := data.userId, data.pending, data.setupRequired;
      registerChallenge, authChallenge := data.registerChallenge, data.authChallenge;
    }

    function Data(): Session
      reads this
    {
      Session(userId, pending, setupRequired, registerChallenge, authChallenge)
    }

    method Clear()
      modifies this
      ensures Data() == BLANK
    {
      userId, pending, setupRequired, registerChallenge, authChallenge := None, None, false, None, None;
    }
  }

  class Routes {
    const mfa: MfaService
    const loginLimiter: Limiter.RateLimiter
    const mfaLimiter: Limiter.RateLimiter

    constructor (crypto: Mfa.Crypto)
      ensures mfa.crypto == crypto && loginLimiter.limits == Limiter.LOGIN && mfaLimiter.limits == Limiter.MFA && Separate()
      ensures fresh(mfa.totpRepo) && fresh(mfa.recoveryRepo) && fresh(mfa.passkeyRepo) && fresh(mfa.orgRepo)
      ensures fresh(loginLimiter) && fresh(mfaLimiter) && Server() == Sessions.Server(Mfa.EMPTY, {})
      ensures forall start: real :: Is(start, FRESH, [])
    {
      mfa := new MfaService(crypto);
      loginLimiter := new Limiter.RateLimiter(Limiter.LOGIN);
      mfaLimiter := new Limiter.RateLimiter(Limiter.MFA);
    }

    ghost predicate Separate() {
      loginLimiter != mfaLimiter
    }

    function Server(): Server
      reads mfa.totpRepo, mfa.recoveryRepo, mfa.passkeyRepo, mfa.orgRepo
    {
      Sessions.Server(mfa.View(), mfa.orgRepo.enforced)
    }

    method SignUpUser(session: RequestSession, registered: Option<int>)
      modifies session
      ensures Reply(Server(), session.Data()) == HandleSignUp(old(Server()), old(session.Data()), registered)
    {
      if session.userId.Some? || registered.None? {
        return;
      }
      session.Clear();
      session.userId := registered;
    }

    /** The part of login after the limiter let the request pass and the form was read. */
    method FinishLogin(session: RequestSession, ip: string, now: real, user: Option<int>)
      modifies session, loginLimiter
      ensures Reply(Server(), session.Data()) == HandleLogIn(old(Server()), old(session.Data()), false, user)
      ensures loginLimiter.attempts == if user.None? then Limiter.Recorded(loginLimiter.limits, old(loginLimiter.attempts), ip, now)
                                       else Limiter.Cleared(old(loginLimiter.attempts), ip)
    {
      if user.None? {
        loginLimiter.RecordFailed(ip, now);
        return;
      }
      loginLimiter.Clear(ip);
      var hasMfa := mfa.HasAny(user.value);
      if hasMfa {
        session.Clear();
        session.pending := user;
        return;
      }
      session.Clear();
      session.userId := user;
      var required := mfa.UserRequiresSetup(user.value);
      if required {
        session.setupRequired := true;
      }
    }

    /** The part of the second step after its limiter let the request pass. */
    method FinishVerify(session: RequestSession, ip: string, now: real, recovery: bool, code: string, at: int)
      requires session.pending.Some?
      modifies session, mfaLimiter, mfa.recoveryRepo
      ensures Reply(Server(), session.Data())
           == HandleVerify(mfa.crypto, old(Server()), old(session.Data()), false, recovery, code, at)
      ensures var ok := Verified(mfa.crypto, old(mfa.View()), old(session.pending.value), recovery, code, at);
              mfaLimiter.attempts == if ok then Limiter.Cleared(old(mfaLimiter.attempts), ip)
                                     else Limiter.Recorded(mfaLimiter.limits, old(mfaLimiter.attempts), ip, now)
    {
      var user := session.pending.value;
      var verified;
      if recovery {
        verified := mfa.CheckRecoveryCode(user, code);
      } else {
        verified := mfa.CheckTotp(user, code, at);
      }
      if !verified {
        mfaLimiter.RecordFailed(ip, now);
        return;
      }
      mfaLimiter.Clear(ip);
      session.Clear();
      session.userId := Some(user);
      var required := mfa.UserRequiresSetup(user);
      if required {
        session.setupRequired := true;
      }
    }

    method CompletePasskeyAuth(session: RequestSession, expired: bool, credentialId: string, valid: bool, count: int)
      modifies session, mfa.passkeyRepo
      ensures Reply(Server(), session.Data())
           == HandleCompleteAuth(old(Server()), old(session.Data()), expired, credentialId, valid, count)
    {
      if session.pending.None? {
        return;
      }
      var user, challenge := session.pending.value, session.authChallenge;
      session.authChallenge := None;
      if challenge.None? || expired {
        return;
      }
      var passkey := Mfa.FindCredential(mfa.passkeyRepo.rows, credentialId);
      if passkey.None? || passkey.value.user != user || !valid {
        return;
      }
      mfa.passkeyRepo.UpdateSignCount(passkey.value.id, count);
      session.Clear();
      session.userId := Some(user);
      var required := mfa.UserRequiresSetup(user);
      if required {
        session.setupRequired := true;
      }
    }

    method ConfirmTotpSetup(session: RequestSession, code: string, at: int, random: (int -> string), hash: (int -> string))
      requires session.userId.Some?
      modifies session, mfa.totpRepo, mfa.recoveryRepo
      ensures Reply(Server(), session.Data())
           == HandleConfirmTotp(mfa.crypto, old(Server()), old(session.Data()), old(session.userId.value), code, at,
                                seq(Mfa.RECOVERY_CODE_COUNT, hash))
    {
      var codes := mfa.ConfirmSetup(session.userId.value, code, at, random, hash);
      if codes.Success? {
        session.setupRequired := false;
      }
    }

    method CompletePasskeyRegistration(session: RequestSession, expired: bool, valid: bool, passkey: Mfa.Passkey, uuid: string)
      requires session.userId.Some?
      modifies session, mfa.passkeyRepo
      ensures Reply(Server(), session.Data())
           == HandleCompleteRegister(old(Server()), old(session.Data()), old(session.userId.value), expired, valid, passkey,
                                     uuid)
    {
      var challenge := session.registerChallenge;
      session.registerChallenge := None;
      if challenge.None? || expired || !valid {
        return;
      }
      mfa.AddPasskey(passkey.(user := session.userId.value), uuid);
      session.setupRequired := false;
    }

    method BeginPasskeyAuth(session: RequestSession, challenge: string)
      modifies session
      ensures Reply(Server(), session.Data()) == Handle(mfa.crypto, old(Server()), old(session.Data()), BeginAuth(challenge))
    {
      if session.pending.Some? {
        session.authChallenge := Some(challenge);
      }
    }

    method LogOutUser(session: RequestSession)
      modifies session
      ensures Reply(Server(), session.Data()) == Handle(mfa.crypto, old(Server()), old(session.Data()), LogOut)
    {
      session.Clear();
    }

    // ---- The other pages of a user who is signed in ----

    method StartTotpSetup(session: RequestSession, secret: string)
      requires session.userId.Some?
      modifies mfa.totpRepo
      ensures Reply(Server(), session.Data())
           == Handle(mfa.crypto, old(Server()), old(session.Data()), StartTotp(secret))
    {
      var _ := mfa.Begin(session.userId.value, secret);
    }

    /** Refused with a wrong password and for a member of an enforcing organization. */
    method DisableTotp(session: RequestSession, passwordOk: bool)
      requires session.userId.Some?
      modifies mfa.totpRepo, mfa.recoveryRepo
      ensures Reply(Server(), session.Data())
           == Handle(mfa.crypto, old(Server()), old(session.Data()), TurnOffTotp(passwordOk))
    {
      if !passwordOk {
        return;
      }
      var enforced := mfa.orgRepo.UserHasEnforcingOrg(session.userId.value);
      if enforced {
        return;
      }
      mfa.TurnOff(session.userId.value);
    }

    method RegenerateRecoveryCodes(session: RequestSession, random: (int -> string), hash: (int -> string))
      requires session.userId.Some?
      modifies mfa.recoveryRepo
      ensures Reply(Server(), session.Data())
           == Handle(mfa.crypto, old(Server()), old(session.Data()), NewCodes(seq(Mfa.RECOVERY_CODE_COUNT, hash)))
    {
      var _ := mfa.RegenerateBatch(session.userId.value, random, hash);
    }

    method BeginPasskeyRegistration(session: RequestSession, challenge: string)
      requires session.userId.Some?
      modifies session
      ensures Reply(Server(), session.Data())
           == Handle(mfa.crypto, old(Server()), old(session.Data()), BeginRegister(challenge))
    {
      session.registerChallenge := Some(challenge);
    }

    method DeletePasskey(session: RequestSession, uuid: string)
      requires session.userId.Some?
      modifies mfa.passkeyRepo
      ensures Reply(Server(), session.Data())
           == Handle(mfa.crypto, old(Server()), old(session.Data()), RemovePasskey(uuid))
    {
      var _ := mfa.RemovePasskey(uuid, session.userId.value);
    }

    /** What accepting an invite changes of the enforcing organizations comes from outside. */
    method AcceptOrgInvite(session: RequestSession, accepted: bool, enforced: set<int>)
      requires session.userId.Some?
      modifies session, mfa.orgRepo
      ensures Reply(Server(), session.Data())
           == Handle(mfa.crypto, old(Server()), old(session.Data()), AcceptInvite(accepted, enforced))
    {
      if !accepted {
        return;
      }
      mfa.orgRepo.SetEnforced(enforced);
      var required := mfa.UserRequiresSetup(session.userId.value);
      if required {
        session.setupRequired := true;
      }
    }

    method ToggleOrgMfa(session: RequestSession, enabling: bool, enforced: set<int>)
      requires session.userId.Some?
      modifies session, mfa.orgRepo
      ensures Reply(Server(), session.Data())
           == Handle(mfa.crypto, old(Server()), old(session.Data()), ToggleEnforcement(enabling, enforced))
    {
      mfa.orgRepo.SetEnforced(enforced);
      if enabling {
        var any := mfa.HasAny(session.userId.value);
        if !any {
          session.setupRequired := true;
        }
      }
    }

    // ---- Serving requests ----

    /** What the limiter answers a request: true when it is locked out. */
    ghost predicate LockedOut(session: RequestSession, ip: string, now: real, r: Request)
      reads session, loginLimiter, mfaLimiter
    {
      if r.LogIn? then Limiter.Locked(loginLimiter.limits, loginLimiter.attempts, ip, now)
      else r.Verify? && session.pending.Some? && Limiter.Locked(mfaLimiter.limits, mfaLimiter.attempts, ip, now)
    }

    /** The attempts are pruned at the check; a login that is let through records its failure or
        clears the address. */
    method ServeLogIn(session: RequestSession, ip: string, checkedAt: real, finishedAt: real, r: Request)
      requires r.LogIn?
      modifies session, loginLimiter
      ensures Reply(Server(), session.Data()) ==
              Handle(mfa.crypto, old(Server()), old(session.Data()),
                     WithAnswer(r, old(LockedOut(session, ip, checkedAt, r))))
      ensures loginLimiter.attempts
           == Tried(loginLimiter.limits, old(loginLimiter.attempts), ip, checkedAt, finishedAt, r.user.Some?)
    {
      var limited := loginLimiter.IsRateLimited(ip, checkedAt);
      if !limited {
        FinishLogin(session, ip, finishedAt, r.user);
      }
    }

    /** So does a second step of a session that waits for one. */
    method ServeVerify(session: RequestSession, ip: string, checkedAt: real, finishedAt: real, r: Request)
      requires r.Verify?
      modifies session, mfaLimiter, mfa.recoveryRepo
      ensures Reply(Server(), session.Data()) ==
              Handle(mfa.crypto, old(Server()), old(session.Data()),
                     WithAnswer(r, old(LockedOut(session, ip, checkedAt, r))))
      ensures mfaLimiter.attempts ==
              if old(session.pending).None? then old(mfaLimiter.attempts)
              else Tried(mfaLimiter.limits, old(mfaLimiter.attempts), ip, checkedAt, finishedAt,
                         Verified(mfa.crypto, old(mfa.View()), old(session.pending).value, r.recovery, r.code, r.at))
    {
      if session.pending.None? {
        return;
      }
      var limited := mfaLimiter.IsRateLimited(ip, checkedAt);
      if !limited {
        FinishVerify(session, ip, finishedAt, r.recovery, r.code, r.at);
      }
    }

    /** A request of a user who is signed in, for the pages that need one. */
    method ServeSecurity(session: RequestSession, r: Request)
      requires session.userId.Some? && FullBatch(r) && !r.SignUp? && !r.LogIn? && !r.Verify? && !r.BeginAuth?
      requires !r.CompleteAuth? && !r.LogOut?
      modifies session, mfa.totpRepo, mfa.recoveryRepo, mfa.passkeyRepo, mfa.orgRepo
      ensures Reply(Server(), session.Data()) == Handle(mfa.crypto, old(Server()), old(session.Data()), r)
    {
      match r {
        case StartTotp(secret) => StartTotpSetup(session, secret);
        case ConfirmTotp(code, at, hashes) =>
          FullBatchHashes(hashes);
          ConfirmTotpSetup(session, code, at, _ => "", HashAt(hashes));
        case TurnOffTotp(passwordOk) => DisableTotp(session, passwordOk);
        case NewCodes(hashes) =>
          FullBatchHashes(hashes);
          RegenerateRecoveryCodes(session, _ => "", HashAt(hashes));
        case BeginRegister(challenge) => BeginPasskeyRegistration(session, challenge);
        case CompleteRegister(expired, valid, passkey, uuid) =>
          CompletePasskeyRegistration(session, expired, valid, passkey, uuid);
        case RemovePasskey(uuid) => DeletePasskey(session, uuid);
        case AcceptInvite(accepted, enforced) => AcceptOrgInvite(session, accepted, enforced);
        case ToggleEnforcement(enabling, enforced) => ToggleOrgMfa(session, enabling, enforced);
      }
    }

    /** Every request does what Sessions says of it, with the limiter's own answer; a login changes
        the first limiter, a second step of a waiting session the second one, and nothing else
        changes either. */
    method Dispatch(session: RequestSession, ip: string, checkedAt: real, finishedAt: real, r: Request)
      requires FullBatch(r) && Separate()
      modifies session, loginLimiter, mfaLimiter, mfa.totpRepo, mfa.recoveryRepo, mfa.passkeyRepo, mfa.orgRepo
      ensures Reply(Server(), session.Data()) ==
              Handle(mfa.crypto, old(Server()), old(session.Data()),
                     WithAnswer(r, old(LockedOut(session, ip, checkedAt, r))))
      ensures loginLimiter.attempts ==
              if !r.LogIn? then old(loginLimiter.attempts)
              else Tried(loginLimiter.limits, old(loginLimiter.attempts), ip, checkedAt, finishedAt, r.user.Some?)
      ensures mfaLimiter.attempts ==
              if !r.Verify? || old(session.pending).None? then old(mfaLimiter.attempts)
              else Tried(mfaLimiter.limits, old(mfaLimiter.attempts), ip, checkedAt, finishedAt,
                         Verified(mfa.crypto, old(mfa.View()), old(session.pending).value, r.recovery, r.code, r.at))
    {
      match r {
        case SignUp(registered) => SignUpUser(session, registered);
        case LogIn(_, _) => ServeLogIn(session, ip, checkedAt, finishedAt, r);
        case Verify(_, _, _, _) => ServeVerify(session, ip, checkedAt, finishedAt, r);
        case BeginAuth(challenge) => BeginPasskeyAuth(session, challenge);
        case CompleteAuth(expired, id, valid, count) => CompletePasskeyAuth(session, expired, id, valid, count);
        case LogOut => LogOutUser(session);
        case _ =>
          if session.userId.Some? {
            ServeSecurity(session, r);
          }
      }
    }

    /** The server and both limiters are as after these visits. */
    ghost predicate Is(start: real, s: Service, issued: seq<Session>)
      reads mfa.totpRepo, mfa.recoveryRepo, mfa.passkeyRepo, mfa.orgRepo, loginLimiter, mfaLimiter
    {
      && loginLimiter.limits == Limiter.LOGIN && mfaLimiter.limits == Limiter.MFA
      && State(Server(), issued) == s.state
      && loginLimiter.attempts == Attempts(Limiter.LOGIN, start, s.login)
      && mfaLimiter.attempts == Attempts(Limiter.MFA, start, s.second)
    }

    /** One visit. */
    method Take(ghost start: real, ghost s: Service, v: Visit, issued: seq<Session>) returns (longer: seq<Session>)
      requires Separate() && FullBatch(v.request) && Is(start, s, issued)
      modifies loginLimiter, mfaLimiter, mfa.totpRepo, mfa.recoveryRepo, mfa.passkeyRepo, mfa.orgRepo
      ensures Is(start, Visited(mfa.crypto, start, s, v), longer)
    {
      var session := new RequestSession(if 0 <= v.from < |issued| then issued[v.from] else BLANK);
      assert session.Data() == PresentedBy(s, v);
      assert LockedOut(session, v.ip, v.checkedAt, v.request) == Answer(start, s, v);
      Dispatch(session, v.ip, v.checkedAt, v.finishedAt, v.request);
      longer := issued + [session.Data()];
      if v.request.LogIn? {
        TryRuns(Limiter.LOGIN, start, s.login, v.ip, v.checkedAt, v.finishedAt, v.request.user.Some?);
      }
      if v.request.Verify? && PresentedBy(s, v).pending.Some? {
        TryRuns(Limiter.MFA, start, s.second, v.ip, v.checkedAt, v.finishedAt,
                Verified(mfa.crypto, s.state.server.tables, PresentedBy(s, v).pending.value, v.request.recovery,
                         v.request.code, v.request.at));
      }
      assert s.login + [] == s.login && s.second + [] == s.second;
    }

    /** A server that starts empty and handles requests one after the other, each with any session
        that it issued before: sessions, tables and both limiters are those of Served. So every
        session it ever issued is signed in exactly by what its own lineage earned, and with a
        clock that does not go back a login is answered as limited exactly after five failures
        of its address within sixty seconds, and a second step after five within 300. */
    method Serve(ghost start: real, visits: seq<Visit>) returns (issued: seq<Session>)
      requires Separate() && Is(start, FRESH, [])
      requires forall i | 0 <= i < |visits| :: FullBatch(visits[i].request)
      modifies loginLimiter, mfaLimiter, mfa.totpRepo, mfa.recoveryRepo, mfa.passkeyRepo, mfa.orgRepo
      ensures Is(start, ServeAll(mfa.crypto, start, visits), issued)
      ensures var seen := ServeAll(mfa.crypto, start, visits).seen;
              && |issued| == |seen| == |visits|
              && (forall i, u: int | 0 <= i < |issued| :: issued[i].userId == Some(u) <==> OwnEarned(mfa.crypto, seen, i, u))
              && (forall i | 0 <= i < |issued| :: Exclusive(issued[i]))
      ensures Forward(start, visits) ==> LoginsLimited(visits, ServeAll(mfa.crypto, start, visits).seen)
      ensures Forward(start, visits) ==> SecondsLimited(visits, ServeAll(mfa.crypto, start, visits).seen, issued)
    {
      issued := [];
      for i := 0 to |visits|
        invariant Is(start, ServeAll(mfa.crypto, start, visits[..i]), issued)
      {
        assert visits[..i + 1][..i] == visits[..i];
        issued := Take(start, ServeAll(mfa.crypto, start, visits[..i]), visits[i], issued);
      }
      assert visits[..|visits|] == visits;
      ServedLineage(mfa.crypto, start, visits);
      if Forward(start, visits) {
        AllLoginsLimited(mfa.crypto, start, visits);
        AllSecondsLimited(mfa.crypto, start, visits);
      }
    }
  }

  /** Every login is answered as limited exactly after five failures within sixty seconds. */
  ghost predicate LoginsLimited(visits: seq<Visit>, seen: seq<Event>) {
    && |seen| == |visits|
    && forall j | 0 <= j < |visits| && visits[j].request.LogIn? ::
         && seen[j].request.LogIn?
         && (seen[j].request.limited <==> Failures(LoginMarks(visits, seen), j, visits[j].ip, visits[j].checkedAt, 60.0) >= 5)
  }

  /** Every second step of a waiting session is answered as limited exactly after five failures
      within 300 seconds. */
  ghost predicate SecondsLimited(visits: seq<Visit>, seen: seq<Event>, issued: seq<Session>) {
    && |seen| == |issued| == |visits|
    && forall j | 0 <= j < |visits| && visits[j].request.Verify?
                  && 0 <= visits[j].from < j && issued[visits[j].from].pending.Some? ::
         && seen[j].request.Verify?
         && (seen[j].request.limited <==>
               Failures(SecondMarks(visits, seen, issued), j, visits[j].ip, visits[j].checkedAt, 300.0) >= 5)
  }

  lemma AllSecondsLimited(c: Mfa.Crypto, start: real, visits: seq<Visit>)
    requires Forward(start, visits)
    ensures var s := ServeAll(c, start, visits); SecondsLimited(visits, s.seen, s.state.issued)
  {
    ServedIsRun(c, start, visits);
    var s := ServeAll(c, start, visits);
    forall j | 0 <= j < |visits| && visits[j].request.Verify?
               && 0 <= visits[j].from < j && s.state.issued[visits[j].from].pending.Some?
      ensures && s.seen[j].request.Verify?
              && (s.seen[j].request.limited <==>
                    Failures(SecondMarks(visits, s.seen, s.state.issued), j, visits[j].ip, visits[j].checkedAt, 300.0) >= 5)
    {
      SecondLimitedIff(c, start, visits, j);
    }
  }

  lemma AllLoginsLimited(c: Mfa.Crypto, start: real, visits: seq<Visit>)
    requires Forward(start, visits)
    ensures LoginsLimited(visits, ServeAll(c, start, visits).seen)
  {
    ServedIsRun(c, start, visits);
    forall j | 0 <= j < |visits| && visits[j].request.LogIn?
      ensures var seen := ServeAll(c, start, visits).seen;
              && seen[j].request.LogIn?
              && (seen[j].request.limited <==> Failures(LoginMarks(visits, seen), j, visits[j].ip, visits[j].checkedAt, 60.0) >= 5)
    {
      LoginLimitedIff(c, start, visits, j);
    }
  }

  lemma ServedLineage(c: Mfa.Crypto, start: real, visits: seq<Visit>)
    ensures var s := ServeAll(c, start, visits); var issued := s.state.issued;
            && |issued| == |s.seen| == |visits|
            && (forall i, u: int | 0 <= i < |issued| :: issued[i].userId == Some(u) <==> OwnEarned(c, s.seen, i, u))
            && (forall i | 0 <= i < |issued| :: Exclusive(issued[i]))
  {
    var s := ServeAll(c, start, visits);
    ServedIsRun(c, start, visits);
    forall i: nat, u: int | i < |s.seen| ensures s.state.issued[i].userId == Some(u) <==> OwnEarned(c, s.seen, i, u) {
      SignedInIsEarned(c, s.seen, i, u);
    }
    AlwaysExclusive(c, s.seen);
  }

  function HashAt(hashes: seq<string>): int -> string {
    i => if 0 <= i < |hashes| then hashes[i] else ""
  }

  lemma FullBatchHashes(hashes: seq<string>)
    requires |hashes| == Mfa.RECOVERY_CODE_COUNT
    ensures seq(Mfa.RECOVERY_CODE_COUNT, HashAt(hashes)) == hashes
  {
  }
}
