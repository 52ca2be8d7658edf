/** Login sessions: the handlers of web/auth.py and web/routes/security.py as steps on the session
    of a request and on the tables of second factors. A session lives in a signed cookie, so a
    request may present any session that was ever issued. */
module Sessions {
  import opened Wrappers
  import Mfa

  datatype Session = Session(
    userId: Option<int>, pending: Option<int>, setupRequired: bool,
    registerChallenge: Option<string>, authChallenge: Option<string>)

  const BLANK := Session(None, None, false, None, None)

  function SignedIn(u: int, setupRequired: bool): Session {
    BLANK.(userId := Some(u), setupRequired := setupRequired)
  }

  /** What a request brings: its form, and what the user service, the clock, the limiter and the
      WebAuthn library say of it. */
  datatype Request =
    | SignUp(registered: Option<int>)
    | LogIn(limited: bool, user: Option<int>)
    | Verify(limited: bool, recovery: bool, code: string, at: int)
    | BeginAuth(challenge: string)
    | CompleteAuth(expired: bool, credentialId: string, valid: bool, signCount: int)
    | LogOut
    | StartTotp(secret: string)
    | ConfirmTotp(code: string, at: int, hashes: seq<string>)
    | TurnOffTotp(passwordOk: bool)
    | NewCodes(hashes: seq<string>)
    | BeginRegister(challenge: string)
    | CompleteRegister(expired: bool, valid: bool, passkey: Mfa.Passkey, uuid: string)
    | RemovePasskey(uuid: string)
    | AcceptInvite(accepted: bool, enforced: set<int>)
    | ToggleEnforcement(enabling: bool, enforced: set<int>)

  /** The tables of second factors, the members of organizations that enforce them, a session. */
  datatype Server = Server(tables: Mfa.Tables, enforced: set<int>)

  datatype Reply = Reply(server: Server, session: Session)

  // ---- Handlers ----

  function HandleSignUp(v: Server, s: Session, registered: Option<int>): Reply {
    if s.userId.Some? || registered.None? then Reply(v, s) else Reply(v, SignedIn(registered.value, false))
  }

  function HandleLogIn(v: Server, s: Session, limited: bool, user: Option<int>): Reply {
    if limited || user.None? then Reply(v, s)
    else if Mfa.HasAnyMfa(v.tables, user.value) then Reply(v, BLANK.(pending := user))
    else Reply(v, SignedIn(user.value, Mfa.RequiresSetup(v.tables, v.enforced, user.value)))
  }

  predicate Verified(c: Mfa.Crypto, m: Mfa.Tables, u: int, recovery: bool, code: string, at: int) {
    if recovery then Mfa.VerifiesRecovery(c, m, u, code) else Mfa.VerifyTotp(c, m, u, code, at)
  }

  function HandleVerify(c: Mfa.Crypto, v: Server, s: Session, limited: bool, recovery: bool, code: string, at: int): Reply {
    if s.pending.None? || limited then Reply(v, s)
    else
      var u := s.pending.value;
      if !Verified(c, v.tables, u, recovery, code, at) then Reply(v, s)
      else
        var after := if recovery then Mfa.UseRecovery(c, v.tables, u, code) else v.tables;
        Reply(v.(tables := after), SignedIn(u, Mfa.RequiresSetup(after, v.enforced, u)))
  }

  function HandleCompleteAuth(v: Server, s: Session, expired: bool, credentialId: string, valid: bool, count: int): Reply {
    if s.pending.None? then Reply(v, s)
    else
      var popped := s.(authChallenge := None);
      var u := s.pending.value;
      var passkey := Mfa.FindCredential(v.tables.passkeys, credentialId);
      if s.authChallenge.None? || expired || passkey.None? || passkey.value.user != u || !valid then Reply(v, popped)
      else
        var after := Mfa.SetSignCount(v.tables, passkey.value.id, count);
        Reply(v.(tables := after), SignedIn(u, Mfa.RequiresSetup(after, v.enforced, u)))
  }

  function HandleConfirmTotp(c: Mfa.Crypto, v: Server, s: Session, u: int, code: string, at: int, hashes: seq<string>)
    : Reply
  {
    match Mfa.ConfirmTotp(c, v.tables, u, code, at, hashes)
    case Success(after) => Reply(v.(tables := after), s.(setupRequired := false))
    case Failure(_) => Reply(v, s)
  }

  function HandleCompleteRegister(v: Server, s: Session, u: int, expired: bool, valid: bool, passkey: Mfa.Passkey,
                                  uuid: string): Reply
  {
    var popped := s.(registerChallenge := None);
    if s.registerChallenge.None? || expired || !valid then Reply(v, popped)
    else
      Reply(v.(tables := Mfa.RegisterPasskey(v.tables, passkey.(user := u), uuid)), popped.(setupRequired := false))
  }

  /** A request for the security pages, from a user who is signed in. */
  function HandleSecurity(c: Mfa.Crypto, v: Server, s: Session, u: int, r: Request): Reply {
    match r
    case StartTotp(secret) => Reply(v.(tables := Mfa.OrElse(Mfa.SetupTotp(v.tables, u, secret), v.tables)), s)
    case ConfirmTotp(code, at, hashes) => HandleConfirmTotp(c, v, s, u, code, at, hashes)
    case TurnOffTotp(passwordOk) =>
      if !passwordOk || u in v.enforced then Reply(v, s) else Reply(v.(tables := Mfa.DisableTotp(v.tables, u)), s)
    case NewCodes(hashes) => Reply(v.(tables := Mfa.OrElse(Mfa.RegenerateCodes(v.tables, u, hashes), v.tables)), s)
    case BeginRegister(challenge) => Reply(v, s.(registerChallenge := Some(challenge)))
    case CompleteRegister(expired, valid, passkey, uuid) => HandleCompleteRegister(v, s, u, expired, valid, passkey, uuid)
    case RemovePasskey(uuid) => Reply(v.(tables := Mfa.OrElse(Mfa.DeletePasskey(v.tables, uuid, u), v.tables)), s)
    case AcceptInvite(accepted, enforced) =>
      if !accepted then Reply(v, s)
      else Reply(v.(enforced := enforced), if Mfa.RequiresSetup(v.tables, enforced, u) then s.(setupRequired := true) else s)
    case ToggleEnforcement(enabling, enforced) =>
      Reply(v.(enforced := enforced), if enabling && !Mfa.HasAnyMfa(v.tables, u) then s.(setupRequired := true) else s)
    case _ => Reply(v, s)
  }

  function Handle(c: Mfa.Crypto, v: Server, s: Session, r: Request): Reply {
    match r
    case SignUp(registered) => HandleSignUp(v, s, registered)
    case LogIn(limited, user) => HandleLogIn(v, s, limited, user)
    case Verify(limited, recovery, code, at) => HandleVerify(c, v, s, limited, recovery, code, at)
    case BeginAuth(challenge) => Reply(v, if s.pending.None? then s else s.(authChallenge := Some(challenge)))
    case CompleteAuth(expired, credentialId, valid, count) => HandleCompleteAuth(v, s, expired, credentialId, valid, count)
    case LogOut => Reply(v, BLANK)
    case _ => if s.userId.None? then Reply(v, s) else HandleSecurity(c, v, s, s.userId.value, r)
  }

  // ---- Runs ----

  /** A request with the session it presents: an earlier one by number, or none. */
  datatype Event = Event(from: int, request: Request)

  datatype State = State(server: Server, issued: seq<Session>)

  function Presented(t: State, e: Event): Session {
    if 0 <= e.from < |t.issued| then t.issued[e.from] else BLANK
  }

  function Step(c: Mfa.Crypto, t: State, e: Event): State {
    var reply := Handle(c, t.server, Presented(t, e), e.request);
    State(reply.server, t.issued + [reply.session])
  }

  function Run(c: Mfa.Crypto, events: seq<Event>): State {
    if events == [] then State(Server(Mfa.EMPTY, {}), [])
    else Step(c, Run(c, events[..|events| - 1]), events[|events| - 1])
  }

  // ---- A login in progress is not a login ----

  predicate Exclusive(s: Session) {
    s.userId.None? || s.pending.None?
  }

  lemma HandleKeepsExclusive(c: Mfa.Crypto, v: Server, s: Session, r: Request)
    requires Exclusive(s)
    ensures Exclusive(Handle(c, v, s, r).session)
  {
  }

  /** No session ever issued is signed in and waiting for a second factor at once. */
  lemma {:induction false} AlwaysExclusive(c: Mfa.Crypto, events: seq<Event>)
    ensures forall i | 0 <= i < |Run(c, events).issued| :: Exclusive(Run(c, events).issued[i])
  {
    if events != [] {
      var front, last := events[..|events| - 1], events[|events| - 1];
      AlwaysExclusive(c, front);
      HandleKeepsExclusive(c, Run(c, front).server, Presented(Run(c, front), last), last.request);
    }
  }

  // ---- How a session comes to be signed in ----

  /** Event e signs user u up. */
  predicate SignsUp(c: Mfa.Crypto, events: seq<Event>, e: nat, u: int) {
    && e < |events| && events[e].request == SignUp(Some(u))
    && Presented(Run(c, events[..e]), events[e]).userId.None?
  }

  /** Event e presents the password of u, who has no second factor at that moment. */
  predicate PasswordAlone(c: Mfa.Crypto, events: seq<Event>, e: nat, u: int) {
    && e < |events| && events[e].request == LogIn(false, Some(u))
    && !Mfa.HasAnyMfa(Run(c, events[..e]).server.tables, u)
  }

  /** Event e presents the password of u, who has one. */
  predicate PasswordFirst(c: Mfa.Crypto, events: seq<Event>, e: nat, u: int) {
    && e < |events| && events[e].request == LogIn(false, Some(u))
    && Mfa.HasAnyMfa(Run(c, events[..e]).server.tables, u)
  }

  /** A second factor of the user the session is waiting for is presented and accepted: a code
      valid at that time for the user's own confirmed secret, a text that matches an unused
      recovery code of the user, or a valid assertion, in time and to an open challenge, for a
      credential whose passkey is the user's. */
  ghost predicate FactorAccepted(c: Mfa.Crypto, m: Mfa.Tables, s: Session, r: Request, u: int) {
    && s.pending == Some(u)
    && match r
       case Verify(limited, recovery, code, at) =>
         && !limited
         && (recovery ==> exists x <- m.codes :: x.user == u && !x.used && c.codeMatches(code, x.hash))
         && (!recovery ==> u in m.totp && m.totp[u].confirmed && c.totpValid(m.totp[u].secret, code, at))
       case CompleteAuth(expired, credentialId, valid, _) =>
         s.authChallenge.Some? && !expired && valid && Mfa.CredentialOf(m.passkeys, credentialId, u)
       case _ => false
  }

  lemma AcceptedIff(c: Mfa.Crypto, m: Mfa.Tables, s: Session, r: Request, u: int)
    requires s.pending == Some(u)
    ensures r.Verify? ==> (FactorAccepted(c, m, s, r, u) <==> !r.limited && Verified(c, m, u, r.recovery, r.code, r.at))
    ensures r.CompleteAuth? ==>
              (FactorAccepted(c, m, s, r, u) <==>
                 && s.authChallenge.Some? && !r.expired && r.valid
                 && Mfa.FindCredential(m.passkeys, r.credentialId).Some?
                 && Mfa.FindCredential(m.passkeys, r.credentialId).value.user == u)
  {
    if r.Verify? {
      Mfa.RecoveryIff(c, m, u, r.code);
    } else if r.CompleteAuth? {
      Mfa.CredentialIff(m.passkeys, r.credentialId, u);
    }
  }

  ghost predicate SecondFactor(c: Mfa.Crypto, events: seq<Event>, e: nat, u: int) {
    e < |events| &&
    var before := Run(c, events[..e]);
    FactorAccepted(c, before.server.tables, Presented(before, events[e]), events[e].request, u)
  }

  /** The request ends the session it presents: a logout, or a login of whomever. */
  predicate EndsSession(r: Request) {
    r == LogOut || (r.LogIn? && !r.limited && r.user.Some?)
  }

  /** A request leaves a session signed in as u exactly when u just earned it, or was signed in
      before and the request does not end the session. */
  lemma SignedInIff(c: Mfa.Crypto, v: Server, s: Session, r: Request, u: int)
    requires Exclusive(s)
    ensures Handle(c, v, s, r).session.userId == Some(u)
       <==> || FactorAccepted(c, v.tables, s, r, u)
            || (r == LogIn(false, Some(u)) && !Mfa.HasAnyMfa(v.tables, u))
            || (r == SignUp(Some(u)) && s.userId.None?)
            || (s.userId == Some(u) && !EndsSession(r))
  {
    if s.pending.Some? {
      AcceptedIff(c, v.tables, s, r, s.pending.value);
    }
  }

  /** It leaves a session waiting for a second factor of u exactly when u just gave the password
      and has one, or was awaited before and nobody signs in or out. */
  lemma PendingIff(c: Mfa.Crypto, v: Server, s: Session, r: Request, u: int)
    requires Exclusive(s)
    ensures Handle(c, v, s, r).session.pending == Some(u)
       <==> || (r == LogIn(false, Some(u)) && Mfa.HasAnyMfa(v.tables, u))
            || (s.pending == Some(u) && !EndsSession(r) && !FactorAccepted(c, v.tables, s, r, u)
                && !(r.SignUp? && r.registered.Some?))
  {
    if s.pending.Some? {
      AcceptedIff(c, v.tables, s, r, s.pending.value);
    }
  }

  // ---- The lineage of a session ----

  /** Event j issues session j. Its parent is the session that the event presents, if any. */
  predicate HasParent(events: seq<Event>, j: nat) {
    j < |events| && 0 <= events[j].from < j
  }

  /** Session j waits for a second factor of u by its own lineage: its event gives the password of
      u, who has a second factor, or its parent waits for u and the event neither signs in or out
      nor passes the second factor. */
  ghost predicate OwnPending(c: Mfa.Crypto, events: seq<Event>, j: nat, u: int)
    decreases j
  {
    || PasswordFirst(c, events, j, u)
    || (HasParent(events, j) && OwnPending(c, events, events[j].from, u) && !EndsSession(events[j].request)
        && !SecondFactor(c, events, j, u) && !(events[j].request.SignUp? && events[j].request.registered.Some?))
  }

  /** Session j is signed in as u by its own lineage: its event signs u up from a session without
      a user, or gives the password of u, who has no second factor at that moment, or presents an
      accepted second factor of u and a parent that waits for u; or its parent is signed in as u
      and the event does not end the session. */
  ghost predicate OwnEarned(c: Mfa.Crypto, events: seq<Event>, j: nat, u: int)
    decreases j
  {
    || SignsUp(c, events, j, u)
    || PasswordAlone(c, events, j, u)
    || (SecondFactor(c, events, j, u) && HasParent(events, j) && OwnPending(c, events, events[j].from, u))
    || (HasParent(events, j) && OwnEarned(c, events, events[j].from, u) && !EndsSession(events[j].request))
  }

  /** Sessions that were issued stay as they were. */
  lemma {:induction false} IssuedStay(c: Mfa.Crypto, events: seq<Event>, k: nat)
    requires k <= |events|
    ensures |Run(c, events).issued| == |events| && |Run(c, events[..k]).issued| == k
    ensures Run(c, events).issued[..k] == Run(c, events[..k]).issued
  {
    if k == |events| {
      assert events[..k] == events;
      if k > 0 {
        IssuedStay(c, events[..k - 1], k - 1);
      }
    } else {
      var front := events[..|events| - 1];
      IssuedStay(c, front, k);
      assert front[..k] == events[..k];
      assert Run(c, events).issued[..k] == Run(c, front).issued[..k];
    }
  }

  /** Session j is the reply of event j to its parent, or to no session. */
  lemma IssuedAt(c: Mfa.Crypto, events: seq<Event>, j: nat)
    requires j < |events|
    ensures |Run(c, events).issued| == |events|
    ensures var before := Run(c, events[..j]);
            && Run(c, events).issued[j] == Handle(c, before.server, Presented(before, events[j]), events[j].request).session
            && Presented(before, events[j]) == if HasParent(events, j) then Run(c, events).issued[events[j].from] else BLANK
  {
    var upTo, issued := Run(c, events[..j + 1]).issued, Run(c, events).issued;
    IssuedStay(c, events, j);
    IssuedStay(c, events, j + 1);
    assert events[..j + 1][..j] == events[..j];
    assert issued[j] == issued[..j + 1][j] == upTo[j];
    if HasParent(events, j) {
      assert issued[events[j].from] == issued[..j][events[j].from];
    }
  }

  /** A session waits for u exactly when its own lineage says so. */
  lemma {:induction false} PendingIsEarned(c: Mfa.Crypto, events: seq<Event>, i: nat, u: int)
    requires i < |events|
    ensures |Run(c, events).issued| == |events|
    ensures Run(c, events).issued[i].pending == Some(u) <==> OwnPending(c, events, i, u)
    decreases i
  {
    var before := Run(c, events[..i]);
    IssuedAt(c, events, i);
    AlwaysExclusive(c, events);
    PendingIff(c, before.server, Presented(before, events[i]), events[i].request, u);
    if HasParent(events, i) {
      PendingIsEarned(c, events, events[i].from, u);
    }
  }

  /** Whatever sessions are presented in whatever order, a session is signed in as u exactly when
      its own lineage earned it: back to a sign-up of u, to the password of u without a second
      factor at that moment, or to an accepted second factor of u presented with a session that
      itself goes back to the password of u. */
  lemma {:induction false} SignedInIsEarned(c: Mfa.Crypto, events: seq<Event>, i: nat, u: int)
    requires i < |events|
    ensures |Run(c, events).issued| == |events|
    ensures Run(c, events).issued[i].userId == Some(u) <==> OwnEarned(c, events, i, u)
    decreases i
  {
    var before := Run(c, events[..i]);
    IssuedAt(c, events, i);
    AlwaysExclusive(c, events);
    SignedInIff(c, before.server, Presented(before, events[i]), events[i].request, u);
    if HasParent(events, i) {
      SignedInIsEarned(c, events, events[i].from, u);
      PendingIsEarned(c, events, events[i].from, u);
    }
  }

  /** Session k stands in the lineage of session i. */
  predicate Ancestor(events: seq<Event>, k: nat, i: nat)
    decreases i
  {
    k == i || (HasParent(events, i) && Ancestor(events, k, events[i].from))
  }

  lemma {:induction false} PendingOrigin(c: Mfa.Crypto, events: seq<Event>, i: nat, u: int) returns (d: nat)
    requires OwnPending(c, events, i, u)
    ensures Ancestor(events, d, i) && PasswordFirst(c, events, d, u)
    decreases i
  {
    d := i;
    if !PasswordFirst(c, events, i, u) {
      d := PendingOrigin(c, events, events[i].from, u);
    }
  }

  /** Somewhere in the lineage of a session that is signed in as u stands the event that earned it;
      when that is a second factor, the password of u stands before it in the same lineage. */
  lemma {:induction false} LineageOrigin(c: Mfa.Crypto, events: seq<Event>, i: nat, u: int) returns (e: nat, d: nat)
    requires i < |events|
    requires |Run(c, events).issued| == |events| && Run(c, events).issued[i].userId == Some(u)
    ensures Ancestor(events, e, i)
    ensures || SignsUp(c, events, e, u) || PasswordAlone(c, events, e, u)
            || (SecondFactor(c, events, e, u) && d < e && Ancestor(events, d, e) && PasswordFirst(c, events, d, u))
    decreases i
  {
    SignedInIsEarned(c, events, i, u);
    e, d := i, i;
    if !SignsUp(c, events, i, u) && !PasswordAlone(c, events, i, u) {
      if SecondFactor(c, events, i, u) && HasParent(events, i) && OwnPending(c, events, events[i].from, u) {
        d := PendingOrigin(c, events, events[i].from, u);
        AncestorBelow(events, d, events[i].from);
      } else {
        SignedInIsEarned(c, events, events[i].from, u);
        e, d := LineageOrigin(c, events, events[i].from, u);
      }
    }
  }

  lemma {:induction false} AncestorBelow(events: seq<Event>, k: nat, i: nat)
    requires Ancestor(events, k, i)
    ensures k <= i
    decreases i
  {
    if k != i {
      AncestorBelow(events, k, events[i].from);
    }
  }

  // ---- The second factor and the setup flag ----

  /** What a request does to the tables of second factors. */
  function TableOp(c: Mfa.Crypto, v: Server, s: Session, r: Request): Option<Mfa.Op> {
    if r.Verify? && s.pending.Some? && !r.limited && r.recovery then Some(Mfa.Recover(s.pending.value, r.code))
    else if r.CompleteAuth? && Handle(c, v, s, r).server != v then
      Some(Mfa.Touch(Mfa.FindCredential(v.tables.passkeys, r.credentialId).value.id, r.signCount))
    else if s.userId.None? then None
    else
      match r
      case StartTotp(secret) => Some(Mfa.Setup(s.userId.value, secret))
      case ConfirmTotp(code, at, hashes) => Some(Mfa.Confirm(s.userId.value, code, at, hashes))
      case TurnOffTotp(ok) => if ok && s.userId.value !in v.enforced then Some(Mfa.Disable(s.userId.value)) else None
      case NewCodes(hashes) => Some(Mfa.Regenerate(s.userId.value, hashes))
      case CompleteRegister(expired, valid, passkey, uuid) =>
        if s.registerChallenge.Some? && !expired && valid then
          Some(Mfa.Register(passkey.(user := s.userId.value), uuid))
        else None
      case RemovePasskey(uuid) => Some(Mfa.DropPasskey(uuid, s.userId.value))
      case _ => None
  }

  lemma TableOpIs(c: Mfa.Crypto, v: Server, s: Session, r: Request)
    ensures Handle(c, v, s, r).server.tables ==
            match TableOp(c, v, s, r)
            case Some(op) => Mfa.Step(c, v.tables, op)
            case None => v.tables
  {
  }

  function TableOps(c: Mfa.Crypto, events: seq<Event>): seq<Mfa.Op> {
    if events == [] then []
    else
      var before, last := Run(c, events[..|events| - 1]), events[|events| - 1];
      var ops := TableOps(c, events[..|events| - 1]);
      match TableOp(c, before.server, Presented(before, last), last.request)
      case Some(op) => ops + [op]
      case None => ops
  }

  /** A new batch has as many codes as the service generates. */
  predicate FullBatch(r: Request) {
    (r.ConfirmTotp? || r.NewCodes?) ==> |r.hashes| == Mfa.RECOVERY_CODE_COUNT
  }

  predicate FullBatches(events: seq<Event>) {
    forall i | 0 <= i < |events| :: FullBatch(events[i].request)
  }

  lemma {:induction false} TablesAreRun(c: Mfa.Crypto, events: seq<Event>)
    requires FullBatches(events)
    ensures Mfa.FullBatches(TableOps(c, events))
    ensures Run(c, events).server.tables == Mfa.Run(c, TableOps(c, events))
  {
    if events != [] {
      var front, last := events[..|events| - 1], events[|events| - 1];
      var before, ops := Run(c, front), TableOps(c, front);
      TablesAreRun(c, front);
      var s := Presented(before, last);
      TableOpIs(c, before.server, s, last.request);
      match TableOp(c, before.server, s, last.request) {
        case Some(op) => assert (ops + [op])[..|ops|] == ops; assert FullBatch(last.request);
        case None =>
      }
    }
  }

  /** After an accepted second factor the session is signed in, without a flag to set up MFA, and
      indeed the user has MFA: the branches that would set the flag never run. */
  lemma SecondFactorNeedsNoSetup(c: Mfa.Crypto, events: seq<Event>, e: Event, u: int)
    requires FullBatches(events)
    requires var t := Run(c, events); FactorAccepted(c, t.server.tables, Presented(t, e), e.request, u)
    ensures var t := Run(c, events); var reply := Handle(c, t.server, Presented(t, e), e.request);
            reply.session == SignedIn(u, false) && Mfa.HasAnyMfa(reply.server.tables, u)
  {
    var t := Run(c, events);
    var m := t.server.tables;
    TablesAreRun(c, events);
    Mfa.BalancedAlways(c, TableOps(c, events), u);
    AcceptedIff(c, m, Presented(t, e), e.request, u);
    if e.request.Verify? {
      assert Mfa.HasConfirmedTotp(m, u);
    } else {
      Mfa.CredentialOwner(m.passkeys, e.request.credentialId, u);
      var id := Mfa.FindCredential(m.passkeys, e.request.credentialId).value.id;
      CountKeepsOwner(m.passkeys, id, e.request.signCount, u, m);
    }
  }

  lemma {:induction false} CountKeepsOwner(passkeys: seq<Mfa.Passkey>, id: int, count: int, u: int, m: Mfa.Tables)
    requires Mfa.PasskeysOf(passkeys, u) != [] && m.passkeys == passkeys
    ensures Mfa.PasskeysOf(Mfa.SetSignCount(m, id, count).passkeys, u) != []
  {
    var after := Mfa.SetSignCount(m, id, count).passkeys;
    var p := Mfa.PasskeysOf(passkeys, u)[0];
    Mfa.OwnedMember(passkeys, u, p);
    var i :| 0 <= i < |passkeys| && passkeys[i] == p;
    Mfa.OwnedMember(after, u, after[i]);
  }

  /** While a session stays with its user, its flag to set up MFA goes away only when the user
      need not set it up: confirming TOTP and registering a passkey leave the user with MFA, and
      a new login computes the flag anew. */
  lemma FlagClearedOnlyWithMfa(c: Mfa.Crypto, v: Server, s: Session, r: Request, u: int)
    requires s.userId == Some(u) && s.setupRequired && s.pending.None?
    requires Handle(c, v, s, r).session.userId == Some(u) && !Handle(c, v, s, r).session.setupRequired
    ensures !Mfa.RequiresSetup(Handle(c, v, s, r).server.tables, v.enforced, u)
    ensures r.ConfirmTotp? || r.CompleteRegister? ==> Mfa.HasAnyMfa(Handle(c, v, s, r).server.tables, u)
  {
    if r.CompleteRegister? {
      var after := Handle(c, v, s, r).server.tables.passkeys;
      assert after[|after| - 1].user == u;
    }
  }

  // ---- One request at a time ----

  /** A waiting session is signed in by a TOTP code exactly when the user's TOTP is confirmed and
      the code is valid for its secret at that time. */
  lemma TotpSignsInIff(c: Mfa.Crypto, v: Server, s: Session, u: int, code: string, at: int)
    requires s.pending == Some(u) && s.userId.None?
    ensures Handle(c, v, s, Verify(false, false, code, at)).session.userId == Some(u)
       <==> u in v.tables.totp && v.tables.totp[u].confirmed && c.totpValid(v.tables.totp[u].secret, code, at)
  {
    SignedInIff(c, v, s, Verify(false, false, code, at), u);
  }

  /** The event that earned a session by a TOTP code did so with one valid for the secret that was
      confirmed then. */
  lemma EarnedByValidCode(c: Mfa.Crypto, events: seq<Event>, e: nat, u: int)
    requires SecondFactor(c, events, e, u) && events[e].request.Verify? && !events[e].request.recovery
    ensures var m, r := Run(c, events[..e]).server.tables, events[e].request;
            u in m.totp && m.totp[u].confirmed && c.totpValid(m.totp[u].secret, r.code, r.at)
  {
  }

  /** The flag to set up MFA after a request: a login sets it exactly for a user without MFA in an
      enforcing organization; accepting an invite and turning enforcement on set it exactly for a
      user without MFA, the first only if an organization of the user now enforces it. */
  lemma FlagSetIff(c: Mfa.Crypto, v: Server, s: Session, u: int, enforced: set<int>)
    requires s.userId == Some(u)
    ensures var noMfa := !(u in v.tables.totp && v.tables.totp[u].confirmed) && forall p <- v.tables.passkeys :: p.user != u;
            && (Handle(c, v, s, AcceptInvite(true, enforced)).session.setupRequired <==>
                  s.setupRequired || (noMfa && u in enforced))
            && (Handle(c, v, s, AcceptInvite(false, enforced)).session == s)
            && (Handle(c, v, s, ToggleEnforcement(true, enforced)).session.setupRequired <==> s.setupRequired || noMfa)
            && (Handle(c, v, s, ToggleEnforcement(false, enforced)).session == s)
            && Handle(c, v, s, AcceptInvite(true, enforced)).server == v.(enforced := enforced)
            && Handle(c, v, s, ToggleEnforcement(true, enforced)).server == v.(enforced := enforced)
  {
    Mfa.HasMfaIff(v.tables, u);
  }

  /** The whole session after a login, a logout and a sign-up. */
  lemma LoginSessionIs(c: Mfa.Crypto, v: Server, s: Session, u: int)
    ensures var reply := Handle(c, v, s, LogIn(false, Some(u)));
            var noMfa := !(u in v.tables.totp && v.tables.totp[u].confirmed) && forall p <- v.tables.passkeys :: p.user != u;
            && reply.server == v
            && reply.session == if noMfa then Session(Some(u), None, u in v.enforced, None, None)
                                else Session(None, Some(u), false, None, None)
    ensures Handle(c, v, s, LogIn(true, Some(u))) == Reply(v, s) && Handle(c, v, s, LogIn(false, None)) == Reply(v, s)
    ensures Handle(c, v, s, LogOut) == Reply(v, Session(None, None, false, None, None))
    ensures Handle(c, v, s, SignUp(Some(u))) ==
            Reply(v, if s.userId.None? then Session(Some(u), None, false, None, None) else s)
  {
    Mfa.HasMfaIff(v.tables, u);
  }

  /** A challenge is in the session after it was asked for, by a session that may ask; a completion
      takes it out whether it succeeds or fails, so the next one with that session fails. */
  lemma ChallengesOnce(c: Mfa.Crypto, v: Server, s: Session, r: Request)
    ensures r.BeginAuth? && s.pending.Some? ==>
              Handle(c, v, s, r) == Reply(v, s.(authChallenge := Some(r.challenge)))
    ensures r.BeginAuth? && s.pending.None? ==> Handle(c, v, s, r) == Reply(v, s)
    ensures r.CompleteAuth? && s.pending.Some? ==> Handle(c, v, s, r).session.authChallenge.None?
    ensures r.CompleteAuth? && s.authChallenge.None? ==> Handle(c, v, s, r) == Reply(v, s)
    ensures r.BeginRegister? && s.userId.Some? ==>
              Handle(c, v, s, r) == Reply(v, s.(registerChallenge := Some(r.challenge)))
    ensures r.CompleteRegister? && s.userId.Some? ==> Handle(c, v, s, r).session.registerChallenge.None?
    ensures r.CompleteRegister? && s.registerChallenge.None? ==> Handle(c, v, s, r) == Reply(v, s)
  {
  }

  /** A passkey that signs in has its counter noted; no other passkey, no TOTP and no code changes. */
  lemma CountNoted(c: Mfa.Crypto, v: Server, s: Session, r: Request, u: int, i: nat, j: nat)
    requires r.CompleteAuth? && FactorAccepted(c, v.tables, s, r, u)
    requires i < |v.tables.passkeys| && j < |v.tables.passkeys| && v.tables.passkeys[i].credentialId == r.credentialId
    requires forall k | 0 <= k < i :: v.tables.passkeys[k].credentialId != r.credentialId
    ensures var m, after := v.tables, Handle(c, v, s, r).server.tables;
            && after == m.(passkeys := after.passkeys) && |after.passkeys| == |m.passkeys|
            && after.passkeys[i] == m.passkeys[i].(signCount := r.signCount)
            && (m.passkeys[j].id != m.passkeys[i].id ==> after.passkeys[j] == m.passkeys[j])
  {
    AcceptedIff(c, v.tables, s, r, u);
    Mfa.FoundFirst(v.tables.passkeys, i);
    Mfa.SignCountSet(v.tables, v.tables.passkeys[i].id, r.signCount, i);
    Mfa.SignCountSet(v.tables, v.tables.passkeys[i].id, r.signCount, j);
  }

  /** A passkey is registered exactly in time, to an open challenge and with a valid attestation,
      and belongs to the user who is signed in; the flag is cleared with it. */
  lemma RegisteredIff(c: Mfa.Crypto, v: Server, s: Session, u: int, expired: bool, valid: bool, passkey: Mfa.Passkey,
                      uuid: string)
    requires s.userId == Some(u) && forall q <- v.tables.passkeys :: q.credentialId != passkey.credentialId
    ensures var after := Handle(c, v, s, CompleteRegister(expired, valid, passkey, uuid));
            && (s.registerChallenge.Some? && !expired && valid ==>
                  && Mfa.CredentialOf(after.server.tables.passkeys, passkey.credentialId, u) && !after.session.setupRequired)
            && (!(s.registerChallenge.Some? && !expired && valid) ==>
                  after.server == v && after.session.setupRequired == s.setupRequired)
  {
    var mine := passkey.(user := u);
    Mfa.RegisteredThenFound(v.tables, mine, uuid);
    Mfa.CredentialIff(Mfa.RegisterPasskey(v.tables, mine, uuid).passkeys, passkey.credentialId, u);
  }

  /** Confirming a setup clears the flag exactly with a valid code for the setup's secret, and
      leaves the rest of the session. */
  lemma ConfirmedClears(c: Mfa.Crypto, v: Server, s: Session, u: int, code: string, at: int, hashes: seq<string>)
    requires s.userId == Some(u)
    ensures var valid := u in v.tables.totp && !v.tables.totp[u].confirmed && c.totpValid(v.tables.totp[u].secret, code, at);
            Handle(c, v, s, ConfirmTotp(code, at, hashes)).session == s.(setupRequired := s.setupRequired && !valid)
  {
    Mfa.ConfirmsIff(c, v.tables, u, code, at, hashes, u);
  }

  /** Turning TOTP off needs the password and no enforcing organization. */
  lemma TurnedOffIff(c: Mfa.Crypto, v: Server, s: Session, u: int, passwordOk: bool)
    requires s.userId == Some(u) && u in v.tables.totp
    ensures u !in Handle(c, v, s, TurnOffTotp(passwordOk)).server.tables.totp <==> passwordOk && u !in v.enforced
  {
    Mfa.TurnedOff(v.tables, u, u);
  }

  /** Whatever a user who is signed in asks for, the second factors of every other user stay. */
  lemma OthersUntouched(c: Mfa.Crypto, v: Server, s: Session, r: Request, u: int, x: int, p: Mfa.Passkey)
    requires s.userId == Some(u) && s.pending.None? && x != u && p.user == x
    requires forall a, b | a in v.tables.passkeys && b in v.tables.passkeys && a.id == b.id :: a == b
    ensures var after := Handle(c, v, s, r).server.tables;
            && (x in after.totp <==> x in v.tables.totp) && (x in v.tables.totp ==> after.totp[x] == v.tables.totp[x])
            && Mfa.OfUser(after.codes, x) == Mfa.OfUser(v.tables.codes, x)
            && (p in after.passkeys <==> p in v.tables.passkeys)
  {
    var m := v.tables;
    match r {
      case ConfirmTotp(code, at, hashes) => Mfa.ConfirmsIff(c, m, u, code, at, hashes, x);
      case NewCodes(hashes) => Mfa.RegeneratesIff(m, u, hashes, x);
      case TurnOffTotp(_) => Mfa.TurnedOff(m, u, x);
      case RemovePasskey(uuid) => OthersKeepPasskey(m, uuid, u, p);
      case _ =>
    }
  }

  lemma OthersKeepPasskey(m: Mfa.Tables, uuid: string, u: int, p: Mfa.Passkey)
    requires p.user != u
    requires forall a, b | a in m.passkeys && b in m.passkeys && a.id == b.id :: a == b
    ensures var after := Mfa.OrElse(Mfa.DeletePasskey(m, uuid, u), m);
            && after.totp == m.totp && after.codes == m.codes && (p in after.passkeys <==> p in m.passkeys)
  {
    var found := Mfa.FindUuid(m.passkeys, uuid);
    if found.Some? && found.value.user == u {
      Mfa.FoundUuidIsRow(m.passkeys, uuid);
      Mfa.WithoutPasskeyMembers(m.passkeys, found.value.id, p);
    }
  }
}
