/** Second factors: the tables behind rentivo/services/mfa_service.py and what the service's
    operations do to them. */
module Mfa {
  import opened Wrappers

  datatype Totp = Totp(secret: string, confirmed: bool)

  datatype Code = Code(id: int, user: int, hash: string, used: bool)

  datatype Passkey = Passkey(id: int, uuid: string, user: int, credentialId: string, publicKey: string, signCount: int)

  datatype Tables = Tables(
    totp: map<int, Totp>, codes: seq<Code>, nextCode: int, passkeys: seq<Passkey>, nextPasskey: int)

  const EMPTY := Tables(map[], [], 0, [], 0)

  /** The libraries: a code for a secret at a time, and a recovery code against a hash. */
  datatype Crypto = Crypto(totpValid: (string, string, int) -> bool, codeMatches: (string, string) -> bool)

  datatype Error = AlreadyActive | NoSetup | WrongCode | NotActive | NotFound

  const RECOVERY_CODE_COUNT := 10

  // ---- Status ----

  predicate HasConfirmedTotp(m: Tables, u: int) {
    u in m.totp && m.totp[u].confirmed
  }

  function PasskeysOf(passkeys: seq<Passkey>, u: int): seq<Passkey> {
    if passkeys == [] then []
    else
      var last := passkeys[|passkeys| - 1];
      if last.user == u then PasskeysOf(passkeys[..|passkeys| - 1], u) + [last]
      else PasskeysOf(passkeys[..|passkeys| - 1], u)
  }

  predicate HasAnyMfa(m: Tables, u: int) {
    HasConfirmedTotp(m, u) || PasskeysOf(m.passkeys, u) != []
  }

  predicate RequiresSetup(m: Tables, enforced: set<int>, u: int) {
    !HasAnyMfa(m, u) && u in enforced
  }

  // ---- The table of recovery codes ----

  function OfUser(codes: seq<Code>, u: int): seq<Code> {
    if codes == [] then []
    else if codes[|codes| - 1].user == u then OfUser(codes[..|codes| - 1], u) + [codes[|codes| - 1]]
    else OfUser(codes[..|codes| - 1], u)
  }

  function Unused(codes: seq<Code>, u: int): seq<Code> {
    if codes == [] then []
    else
      var last := codes[|codes| - 1];
      if last.user == u && !last.used then Unused(codes[..|codes| - 1], u) + [last]
      else Unused(codes[..|codes| - 1], u)
  }

  function WithoutUser(codes: seq<Code>, u: int): seq<Code> {
    if codes == [] then []
    else if codes[|codes| - 1].user != u then WithoutUser(codes[..|codes| - 1], u) + [codes[|codes| - 1]]
    else WithoutUser(codes[..|codes| - 1], u)
  }

  function NewCodes(u: int, next: int, hashes: seq<string>): seq<Code> {
    seq(|hashes|, i requires 0 <= i < |hashes| => Code(next + i, u, hashes[i], false))
  }

  function MarkUsed(codes: seq<Code>, id: int): seq<Code> {
    seq(|codes|, i requires 0 <= i < |codes| => if codes[i].id == id then codes[i].(used := true) else codes[i])
  }

  function FirstMatch(c: Crypto, rows: seq<Code>, code: string): Option<Code> {
    if rows == [] then None
    else if c.codeMatches(code, rows[0].hash) then Some(rows[0])
    else FirstMatch(c, rows[1..], code)
  }

  // ---- Operations ----

  function SetupTotp(m: Tables, u: int, secret: string): Result<Tables, Error> {
    if HasConfirmedTotp(m, u) then Failure(AlreadyActive)
    else Success(m.(totp := m.totp[u := Totp(secret, false)]))
  }

  function ReplaceCodes(m: Tables, u: int, hashes: seq<string>): Tables {
    m.(codes := WithoutUser(m.codes, u) + NewCodes(u, m.nextCode, hashes), nextCode := m.nextCode + |hashes|)
  }

  function ConfirmTotp(c: Crypto, m: Tables, u: int, code: string, at: int, hashes: seq<string>): Result<Tables, Error> {
    if u !in m.totp then Failure(NoSetup)
    else if m.totp[u].confirmed then Failure(AlreadyActive)
    else if !c.totpValid(m.totp[u].secret, code, at) then Failure(WrongCode)
    else Success(ReplaceCodes(m.(totp := m.totp[u := m.totp[u].(confirmed := true)]), u, hashes))
  }

  predicate VerifyTotp(c: Crypto, m: Tables, u: int, code: string, at: int) {
    HasConfirmedTotp(m, u) && c.totpValid(m.totp[u].secret, code, at)
  }

  function DisableTotp(m: Tables, u: int): Tables {
    m.(totp := map x | x in m.totp && x != u :: m.totp[x], codes := WithoutUser(m.codes, u))
  }

  function RegenerateCodes(m: Tables, u: int, hashes: seq<string>): Result<Tables, Error> {
    if HasConfirmedTotp(m, u) then Success(ReplaceCodes(m, u, hashes)) else Failure(NotActive)
  }

  predicate VerifiesRecovery(c: Crypto, m: Tables, u: int, code: string) {
    FirstMatch(c, Unused(m.codes, u), code).Some?
  }

  /** The tables after a recovery code is tried. */
  function UseRecovery(c: Crypto, m: Tables, u: int, code: string): Tables {
    match FirstMatch(c, Unused(m.codes, u), code)
    case Some(row) => m.(codes := MarkUsed(m.codes, row.id))
    case None => m
  }

  function RegisterPasskey(m: Tables, passkey: Passkey, uuid: string): Tables {
    m.(passkeys := m.passkeys + [passkey.(id := m.nextPasskey, uuid := uuid)], nextPasskey := m.nextPasskey + 1)
  }

  function FindUuid(passkeys: seq<Passkey>, uuid: string): Option<Passkey> {
    if passkeys == [] then None
    else if passkeys[0].uuid == uuid then Some(passkeys[0])
    else FindUuid(passkeys[1..], uuid)
  }

  function FindCredential(passkeys: seq<Passkey>, credentialId: string): Option<Passkey> {
    if passkeys == [] then None
    else if passkeys[0].credentialId == credentialId then Some(passkeys[0])
    else FindCredential(passkeys[1..], credentialId)
  }

  function WithoutPasskey(passkeys: seq<Passkey>, id: int): seq<Passkey> {
    if passkeys == [] then []
    else if passkeys[|passkeys| - 1].id != id then
      WithoutPasskey(passkeys[..|passkeys| - 1], id) + [passkeys[|passkeys| - 1]]
    else WithoutPasskey(passkeys[..|passkeys| - 1], id)
  }

  function DeletePasskey(m: Tables, uuid: string, u: int): Result<Tables, Error> {
    match FindUuid(m.passkeys, uuid)
    case None => Failure(NotFound)
    case Some(p) =>
      if p.user != u then Failure(NotFound) else Success(m.(passkeys := WithoutPasskey(m.passkeys, p.id)))
  }

  function SetSignCount(m: Tables, id: int, count: int): Tables {
    m.(passkeys := seq(|m.passkeys|, i requires 0 <= i < |m.passkeys| =>
                         if m.passkeys[i].id == id then m.passkeys[i].(signCount := count) else m.passkeys[i]))
  }

  // ---- Runs ----

  datatype Op =
    | Setup(user: int, secret: string)
    | Confirm(user: int, code: string, at: int, hashes: seq<string>)
    | Disable(user: int)
    | Regenerate(user: int, hashes: seq<string>)
    | Recover(user: int, code: string)
    | Register(passkey: Passkey, uuid: string)
    | DropPasskey(uuid: string, user: int)
    | Touch(id: int, count: int)

  function OrElse(r: Result<Tables, Error>, m: Tables): Tables {
    match r
    case Success(after) => after
    case Failure(_) => m
  }

  function Step(c: Crypto, m: Tables, op: Op): Tables {
    match op
    case Setup(u, secret) => OrElse(SetupTotp(m, u, secret), m)
    case Confirm(u, code, at, hashes) => OrElse(ConfirmTotp(c, m, u, code, at, hashes), m)
    case Disable(u) => DisableTotp(m, u)
    case Regenerate(u, hashes) => OrElse(RegenerateCodes(m, u, hashes), m)
    case Recover(u, code) => UseRecovery(c, m, u, code)
    case Register(passkey, uuid) => RegisterPasskey(m, passkey, uuid)
    case DropPasskey(uuid, u) => OrElse(DeletePasskey(m, uuid, u), m)
    case Touch(id, count) => SetSignCount(m, id, count)
  }

  function Run(c: Crypto, ops: seq<Op>): Tables {
    if ops == [] then EMPTY else Step(c, Run(c, ops[..|ops| - 1]), ops[|ops| - 1])
  }

  /** A new batch has as many codes as the service generates. */
  predicate FullBatch(op: Op) {
    (op.Confirm? || op.Regenerate?) ==> |op.hashes| == RECOVERY_CODE_COUNT
  }

  predicate FullBatches(ops: seq<Op>) {
    forall i | 0 <= i < |ops| :: FullBatch(ops[i])
  }

  /** The operation gives the user a new batch of codes, or ends the old one. */
  predicate EndsBatch(c: Crypto, m: Tables, op: Op, u: int) {
    || (op.Confirm? && op.user == u && ConfirmTotp(c, m, u, op.code, op.at, op.hashes).Success?)
    || (op.Regenerate? && op.user == u && RegenerateCodes(m, u, op.hashes).Success?)
    || (op.Disable? && op.user == u)
  }

  /** How often the user's recovery codes were accepted since the last batch. */
  function Recoveries(c: Crypto, ops: seq<Op>, u: int): nat {
    if ops == [] then 0
    else
      var before, op := Run(c, ops[..|ops| - 1]), ops[|ops| - 1];
      if EndsBatch(c, before, op, u) then 0
      else if op.Recover? && op.user == u && VerifiesRecovery(c, before, u, op.code) then
        Recoveries(c, ops[..|ops| - 1], u) + 1
      else Recoveries(c, ops[..|ops| - 1], u)
  }

  // ---- Filters ----

  lemma {:induction false} OfUserWithout(codes: seq<Code>, u: int, v: int)
    ensures OfUser(WithoutUser(codes, u), v) == if u == v then [] else OfUser(codes, v)
    ensures Unused(WithoutUser(codes, u), v) == if u == v then [] else Unused(codes, v)
  {
    if codes != [] {
      var front, last := codes[..|codes| - 1], codes[|codes| - 1];
      OfUserWithout(front, u, v);
      if last.user != u {
        assert (WithoutUser(front, u) + [last])[..|WithoutUser(front, u)|] == WithoutUser(front, u);
      }
    }
  }

  lemma {:induction false} OfUserConcat(a: seq<Code>, b: seq<Code>, u: int)
    ensures OfUser(a + b, u) == OfUser(a, u) + OfUser(b, u)
    ensures Unused(a + b, u) == Unused(a, u) + Unused(b, u)
  {
    if b == [] {
      assert a + b == a;
    } else {
      assert (a + b)[..|a + b| - 1] == a + b[..|b| - 1];
      OfUserConcat(a, b[..|b| - 1], u);
    }
  }

  lemma {:induction false} OfUserAll(codes: seq<Code>, u: int, v: int)
    requires forall i | 0 <= i < |codes| :: codes[i].user == u && !codes[i].used
    ensures OfUser(codes, v) == Unused(codes, v) == if u == v then codes else []
  {
    if codes != [] {
      OfUserAll(codes[..|codes| - 1], u, v);
    }
  }

  /** A new batch is all that the user has, and others keep theirs. */
  lemma ReplacedCodes(m: Tables, u: int, hashes: seq<string>, v: int)
    ensures OfUser(ReplaceCodes(m, u, hashes).codes, v) == if u == v then NewCodes(u, m.nextCode, hashes) else OfUser(m.codes, v)
    ensures Unused(ReplaceCodes(m, u, hashes).codes, v) == if u == v then NewCodes(u, m.nextCode, hashes) else Unused(m.codes, v)
  {
    var rest, batch := WithoutUser(m.codes, u), NewCodes(u, m.nextCode, hashes);
    OfUserWithout(m.codes, u, v);
    OfUserAll(batch, u, v);
    OfUserConcat(rest, batch, v);
    assert ReplaceCodes(m, u, hashes).codes == rest + batch;
    var own, unused := OfUser(rest, v), Unused(rest, v);
    assert u == v ==> own + batch == batch && unused + batch == batch;
    assert u != v ==> own + [] == own && unused + [] == unused;
  }

  ghost predicate DistinctIds(codes: seq<Code>) {
    forall i, j | 0 <= i < j < |codes| :: codes[i].id != codes[j].id
  }

  lemma {:induction false} MarkAbsent(codes: seq<Code>, id: int)
    requires forall i | 0 <= i < |codes| :: codes[i].id != id
    ensures MarkUsed(codes, id) == codes
  {
  }

  lemma MarkSnoc(codes: seq<Code>, last: Code, id: int)
    ensures MarkUsed(codes + [last], id)
         == MarkUsed(codes, id) + [if last.id == id then last.(used := true) else last]
  {
  }

  lemma {:induction false} OfUserMarked(codes: seq<Code>, id: int, u: int)
    ensures OfUser(MarkUsed(codes, id), u) == MarkUsed(OfUser(codes, u), id)
    ensures |OfUser(MarkUsed(codes, id), u)| == |OfUser(codes, u)|
  {
    if codes != [] {
      var front, last := codes[..|codes| - 1], codes[|codes| - 1];
      OfUserMarked(front, id, u);
      assert codes == front + [last];
      MarkSnoc(front, last, id);
      MarkSnoc(OfUser(front, u), last, id);
      OfUserConcat(MarkUsed(front, id), [if last.id == id then last.(used := true) else last], u);
      assert OfUser([], u) == [];
    }
  }

  lemma {:induction false} UnusedMembers(codes: seq<Code>, u: int, r: Code)
    ensures r in Unused(codes, u) <==> r in codes && r.user == u && !r.used
  {
    if codes != [] {
      assert codes == codes[..|codes| - 1] + [codes[|codes| - 1]];
      UnusedMembers(codes[..|codes| - 1], u, r);
    }
  }

  lemma {:induction false} FirstMatches(c: Crypto, rows: seq<Code>, code: string)
    ensures FirstMatch(c, rows, code).Some? <==> exists r <- rows :: c.codeMatches(code, r.hash)
    ensures FirstMatch(c, rows, code).Some? ==>
              FirstMatch(c, rows, code).value in rows && c.codeMatches(code, FirstMatch(c, rows, code).value.hash)
  {
    if rows != [] {
      FirstMatches(c, rows[1..], code);
      assert rows == [rows[0]] + rows[1..];
    }
  }

  /** How many unused codes of a user match a text. */
  function Matching(c: Crypto, codes: seq<Code>, u: int, code: string): nat {
    if codes == [] then 0
    else
      var last := codes[|codes| - 1];
      Matching(c, codes[..|codes| - 1], u, code)
      + if last.user == u && !last.used && c.codeMatches(code, last.hash) then 1 else 0
  }

  /** Marking an unused code takes exactly it out of the unused ones. */
  lemma {:induction false} MarkTakesOne(c: Crypto, codes: seq<Code>, r: Code, u: int, code: string)
    requires DistinctIds(codes) && r in codes && !r.used
    ensures |Unused(MarkUsed(codes, r.id), u)| == |Unused(codes, u)| - if r.user == u then 1 else 0
    ensures Matching(c, MarkUsed(codes, r.id), u, code)
         == Matching(c, codes, u, code) - if r.user == u && c.codeMatches(code, r.hash) then 1 else 0
  {
    var front, last := codes[..|codes| - 1], codes[|codes| - 1];
    assert codes == front + [last];
    MarkSnoc(front, last, r.id);
    var marked := if last.id == r.id then last.(used := true) else last;
    assert (MarkUsed(front, r.id) + [marked])[..|front|] == MarkUsed(front, r.id);
    if last == r {
      MarkAbsent(front, r.id);
    } else {
      assert r in front;
      assert last.id != r.id;
      MarkTakesOne(c, front, r, u, code);
    }
  }

  lemma {:induction false} MatchingMember(c: Crypto, codes: seq<Code>, u: int, code: string)
    ensures Matching(c, codes, u, code) > 0 <==> exists r <- Unused(codes, u) :: c.codeMatches(code, r.hash)
  {
    if codes != [] {
      var front, last := codes[..|codes| - 1], codes[|codes| - 1];
      MatchingMember(c, front, u, code);
      if last.user == u && !last.used {
        assert last in Unused(codes, u);
        assert forall r <- Unused(front, u) :: r in Unused(codes, u);
      }
    }
  }

  /** A text is accepted exactly when an unused code matches; one such code is then used up, and
      no other user's codes are. */
  lemma RecoveryConsumes(c: Crypto, m: Tables, u: int, code: string, v: int)
    requires DistinctIds(m.codes)
    ensures VerifiesRecovery(c, m, u, code) <==> Matching(c, m.codes, u, code) > 0
    ensures var spent := if VerifiesRecovery(c, m, u, code) && u == v then 1 else 0;
            && |Unused(UseRecovery(c, m, u, code).codes, v)| == |Unused(m.codes, v)| - spent
            && Matching(c, UseRecovery(c, m, u, code).codes, v, code) == Matching(c, m.codes, v, code) - spent
    ensures |OfUser(UseRecovery(c, m, u, code).codes, v)| == |OfUser(m.codes, v)|
  {
    FirstMatches(c, Unused(m.codes, u), code);
    MatchingMember(c, m.codes, u, code);
    if VerifiesRecovery(c, m, u, code) {
      var r := FirstMatch(c, Unused(m.codes, u), code).value;
      UnusedMembers(m.codes, u, r);
      MarkTakesOne(c, m.codes, r, v, code);
      OfUserMarked(m.codes, r.id, v);
    }
  }

  // ---- The invariant ----

  ghost predicate NumberedCodes(m: Tables) {
    DistinctIds(m.codes) && forall i | 0 <= i < |m.codes| :: m.codes[i].id < m.nextCode
  }

  /** Ten codes with a confirmed TOTP, none without; accepted and unused ones make ten. */
  ghost predicate Balanced(m: Tables, u: int, recoveries: nat) {
    if HasConfirmedTotp(m, u) then
      |OfUser(m.codes, u)| == RECOVERY_CODE_COUNT && |Unused(m.codes, u)| + recoveries == RECOVERY_CODE_COUNT
    else OfUser(m.codes, u) == [] && Unused(m.codes, u) == [] && recoveries == 0
  }

  lemma {:induction false} WithoutUserKeepsIds(codes: seq<Code>, u: int, bound: int)
    requires DistinctIds(codes) && forall i | 0 <= i < |codes| :: codes[i].id < bound
    ensures var rest := WithoutUser(codes, u);
            DistinctIds(rest) && (forall i | 0 <= i < |rest| :: rest[i].id < bound) && forall r <- rest :: r in codes
  {
    if codes != [] {
      var front, last := codes[..|codes| - 1], codes[|codes| - 1];
      WithoutUserKeepsIds(front, u, bound);
      forall r | r in WithoutUser(front, u) ensures r.id != last.id {
        var i :| 0 <= i < |front| && front[i] == r;
      }
    }
  }

  lemma NewCodesNumbered(codes: seq<Code>, u: int, next: int, hashes: seq<string>)
    requires DistinctIds(codes) && forall i | 0 <= i < |codes| :: codes[i].id < next
    ensures DistinctIds(codes + NewCodes(u, next, hashes))
    ensures forall i | 0 <= i < |codes| + |hashes| :: (codes + NewCodes(u, next, hashes))[i].id < next + |hashes|
  {
  }

  lemma ReplacedNumbered(m: Tables, u: int, hashes: seq<string>)
    requires NumberedCodes(m)
    ensures NumberedCodes(ReplaceCodes(m, u, hashes))
  {
    WithoutUserKeepsIds(m.codes, u, m.nextCode);
    NewCodesNumbered(WithoutUser(m.codes, u), u, m.nextCode, hashes);
  }

  lemma StepKeepsNumbered(c: Crypto, m: Tables, op: Op)
    requires NumberedCodes(m)
    ensures NumberedCodes(Step(c, m, op))
  {
    match op {
      case Confirm(u, _, _, hashes) =>
        if u in m.totp {
          ReplacedNumbered(m.(totp := m.totp[u := m.totp[u].(confirmed := true)]), u, hashes);
        }
      case Regenerate(u, hashes) => ReplacedNumbered(m, u, hashes);
      case Disable(u) => WithoutUserKeepsIds(m.codes, u, m.nextCode);
      case _ =>
    }
  }

  lemma BatchBalanced(m: Tables, u: int, hashes: seq<string>, v: int, recoveries: nat)
    requires |hashes| == RECOVERY_CODE_COUNT && HasConfirmedTotp(m, u)
    requires v != u ==> Balanced(m, v, recoveries)
    ensures Balanced(ReplaceCodes(m, u, hashes), v, if u == v then 0 else recoveries)
  {
    ReplacedCodes(m, u, hashes, v);
  }

  /** The count of recoveries after one more operation. */
  function Next(c: Crypto, m: Tables, op: Op, u: int, recoveries: nat): nat {
    if EndsBatch(c, m, op, u) then 0
    else if op.Recover? && op.user == u && VerifiesRecovery(c, m, u, op.code) then recoveries + 1
    else recoveries
  }

  lemma StepKeepsBalance(c: Crypto, m: Tables, op: Op, u: int, recoveries: nat)
    requires NumberedCodes(m) && FullBatch(op) && Balanced(m, u, recoveries)
    ensures Balanced(Step(c, m, op), u, Next(c, m, op, u, recoveries))
  {
    match op {
      case Confirm(v, code, at, hashes) =>
        if ConfirmTotp(c, m, v, code, at, hashes).Success? {
          var confirmed := m.(totp := m.totp[v := m.totp[v].(confirmed := true)]);
          BatchBalanced(confirmed, v, hashes, u, recoveries);
        }
      case Regenerate(v, hashes) =>
        if HasConfirmedTotp(m, v) {
          BatchBalanced(m, v, hashes, u, recoveries);
        }
      case Disable(v) => OfUserWithout(m.codes, v, u);
      case Recover(v, code) => RecoverKeepsBalance(c, m, v, code, u, recoveries);
      case _ =>
    }
  }

  lemma RecoverKeepsBalance(c: Crypto, m: Tables, v: int, code: string, u: int, recoveries: nat)
    requires NumberedCodes(m) && Balanced(m, u, recoveries)
    ensures Balanced(UseRecovery(c, m, v, code), u,
                     if u == v && VerifiesRecovery(c, m, v, code) then recoveries + 1 else recoveries)
  {
    RecoveryConsumes(c, m, v, code, u);
  }

  /** In every state the service can reach, each user has ten recovery codes if TOTP is confirmed
      and none otherwise, and the codes used since the last batch are the recoveries since then. */
  lemma {:induction false} BalancedAlways(c: Crypto, ops: seq<Op>, u: int)
    requires FullBatches(ops)
    ensures NumberedCodes(Run(c, ops)) && Balanced(Run(c, ops), u, Recoveries(c, ops, u))
  {
    if ops != [] {
      BalancedAlways(c, ops[..|ops| - 1], u);
      StepKeepsNumbered(c, Run(c, ops[..|ops| - 1]), ops[|ops| - 1]);
      StepKeepsBalance(c, Run(c, ops[..|ops| - 1]), ops[|ops| - 1], u, Recoveries(c, ops[..|ops| - 1], u));
    }
  }

  /** A batch is good for at most ten recoveries, and has ten codes. */
  lemma AtMostTenRecoveries(c: Crypto, ops: seq<Op>, u: int)
    requires FullBatches(ops)
    ensures Recoveries(c, ops, u) <= 10
    ensures |OfUser(Run(c, ops).codes, u)| == if HasConfirmedTotp(Run(c, ops), u) then 10 else 0
  {
    BalancedAlways(c, ops, u);
  }

  // ---- Owners of passkeys ----

  lemma {:induction false} CredentialOwner(passkeys: seq<Passkey>, credentialId: string, u: int)
    requires FindCredential(passkeys, credentialId).Some? && FindCredential(passkeys, credentialId).value.user == u
    ensures PasskeysOf(passkeys, u) != []
  {
    var p := FindCredential(passkeys, credentialId).value;
    FoundIsRow(passkeys, credentialId);
    OwnedMember(passkeys, u, p);
  }

  lemma {:induction false} FoundIsRow(passkeys: seq<Passkey>, credentialId: string)
    ensures match FindCredential(passkeys, credentialId)
            case Some(p) => p in passkeys && p.credentialId == credentialId
            case None => forall p <- passkeys :: p.credentialId != credentialId
  {
    if passkeys != [] {
      assert passkeys == [passkeys[0]] + passkeys[1..];
      FoundIsRow(passkeys[1..], credentialId);
    }
  }

  lemma {:induction false} OwnedMember(passkeys: seq<Passkey>, u: int, p: Passkey)
    ensures p in PasskeysOf(passkeys, u) <==> p in passkeys && p.user == u
  {
    if passkeys != [] {
      assert passkeys == passkeys[..|passkeys| - 1] + [passkeys[|passkeys| - 1]];
      OwnedMember(passkeys[..|passkeys| - 1], u, p);
    }
  }

  lemma {:induction false} WithoutPasskeyMembers(passkeys: seq<Passkey>, id: int, p: Passkey)
    ensures p in WithoutPasskey(passkeys, id) <==> p in passkeys && p.id != id
  {
    if passkeys != [] {
      assert passkeys == passkeys[..|passkeys| - 1] + [passkeys[|passkeys| - 1]];
      WithoutPasskeyMembers(passkeys[..|passkeys| - 1], id, p);
    }
  }

  lemma {:induction false} FoundUuidIsRow(passkeys: seq<Passkey>, uuid: string)
    ensures FindUuid(passkeys, uuid).Some? ==> FindUuid(passkeys, uuid).value in passkeys
  {
    if passkeys != [] {
      assert passkeys == [passkeys[0]] + passkeys[1..];
      FoundUuidIsRow(passkeys[1..], uuid);
    }
  }

  lemma {:induction false} FoundByUuid(passkeys: seq<Passkey>, uuid: string, p: Passkey)
    requires p in passkeys && p.uuid == uuid && forall q <- passkeys :: q.uuid == uuid ==> q == p
    ensures FindUuid(passkeys, uuid) == Some(p)
  {
    assert passkeys == [passkeys[0]] + passkeys[1..];
    if passkeys[0] != p {
      FoundByUuid(passkeys[1..], uuid, p);
    }
  }

  /** A passkey can be deleted by its owner and by no one else; then it is gone, and every other
      passkey of every user stays. */
  lemma OnlyOwnerDeletes(m: Tables, p: Passkey, u: int, q: Passkey)
    requires p in m.passkeys && forall x <- m.passkeys :: x.uuid == p.uuid || x.id == p.id ==> x == p
    ensures DeletePasskey(m, p.uuid, u).Success? <==> p.user == u
    ensures p.user == u ==> (q in DeletePasskey(m, p.uuid, u).value.passkeys <==> q in m.passkeys && q != p)
  {
    FoundByUuid(m.passkeys, p.uuid, p);
    WithoutPasskeyMembers(m.passkeys, p.id, q);
  }

  // ---- What is accepted ----

  /** MFA is a confirmed TOTP or a passkey. */
  lemma HasMfaIff(m: Tables, u: int)
    ensures HasAnyMfa(m, u) <==> (u in m.totp && m.totp[u].confirmed) || exists p <- m.passkeys :: p.user == u
  {
    if PasskeysOf(m.passkeys, u) != [] {
      OwnedMember(m.passkeys, u, PasskeysOf(m.passkeys, u)[0]);
    }
    if p :| p in m.passkeys && p.user == u {
      OwnedMember(m.passkeys, u, p);
    }
  }

  /** A recovery code is accepted exactly when it matches an unused code of the user. */
  lemma RecoveryIff(c: Crypto, m: Tables, u: int, code: string)
    ensures VerifiesRecovery(c, m, u, code) <==> exists r <- m.codes :: r.user == u && !r.used && c.codeMatches(code, r.hash)
  {
    var unused := Unused(m.codes, u);
    FirstMatches(c, unused, code);
    if r :| r in unused && c.codeMatches(code, r.hash) {
      UnusedMembers(m.codes, u, r);
    }
    if r :| r in m.codes && r.user == u && !r.used && c.codeMatches(code, r.hash) {
      UnusedMembers(m.codes, u, r);
    }
  }

  /** The first passkey with a credential id is the user's. */
  ghost predicate CredentialOf(passkeys: seq<Passkey>, credentialId: string, u: int) {
    exists i | 0 <= i < |passkeys| ::
      && passkeys[i].credentialId == credentialId && passkeys[i].user == u
      && forall k | 0 <= k < i :: passkeys[k].credentialId != credentialId
  }

  lemma {:induction false} CredentialIff(passkeys: seq<Passkey>, credentialId: string, u: int)
    ensures CredentialOf(passkeys, credentialId, u) <==>
              FindCredential(passkeys, credentialId).Some? && FindCredential(passkeys, credentialId).value.user == u
  {
    if passkeys != [] {
      var rest := passkeys[1..];
      CredentialIff(rest, credentialId, u);
      if passkeys[0].credentialId == credentialId {
        assert CredentialOf(passkeys, credentialId, u) <==> passkeys[0].user == u;
      } else {
        if CredentialOf(rest, credentialId, u) {
          var i :| 0 <= i < |rest| && rest[i].credentialId == credentialId && rest[i].user == u
                   && forall k | 0 <= k < i :: rest[k].credentialId != credentialId;
          assert forall k | 0 <= k < i + 1 :: passkeys[k] == if k == 0 then passkeys[0] else rest[k - 1];
          assert passkeys[i + 1] == rest[i];
        }
        if CredentialOf(passkeys, credentialId, u) {
          var i :| 0 <= i < |passkeys| && passkeys[i].credentialId == credentialId && passkeys[i].user == u
                   && forall k | 0 <= k < i :: passkeys[k].credentialId != credentialId;
          assert rest[i - 1] == passkeys[i];
          assert forall k | 0 <= k < i - 1 :: rest[k] == passkeys[k + 1];
        }
      }
    }
  }

  /** A setup is confirmed exactly with a code that is valid for its own secret; then the same
      secret is confirmed, the user has the new codes and nothing else changes. */
  lemma ConfirmsIff(c: Crypto, m: Tables, u: int, code: string, at: int, hashes: seq<string>, v: int)
    ensures ConfirmTotp(c, m, u, code, at, hashes).Success? <==>
              u in m.totp && !m.totp[u].confirmed && c.totpValid(m.totp[u].secret, code, at)
    ensures ConfirmTotp(c, m, u, code, at, hashes).Success? ==>
              var after := ConfirmTotp(c, m, u, code, at, hashes).value;
              && after.totp == m.totp[u := Totp(m.totp[u].secret, true)] && after.passkeys == m.passkeys
              && Remaining(after, u, hashes, {}) && (u != v ==> OfUser(after.codes, v) == OfUser(m.codes, v))
  {
    if ConfirmTotp(c, m, u, code, at, hashes).Success? {
      var confirmed := m.(totp := m.totp[u := m.totp[u].(confirmed := true)]);
      ReplacedCodes(confirmed, u, hashes, v);
      BatchRemains(confirmed, u, hashes);
    }
  }

  /** New codes are made exactly for a confirmed TOTP, and replace only that user's. */
  lemma RegeneratesIff(m: Tables, u: int, hashes: seq<string>, v: int)
    ensures RegenerateCodes(m, u, hashes).Success? <==> u in m.totp && m.totp[u].confirmed
    ensures RegenerateCodes(m, u, hashes).Success? ==>
              var after := RegenerateCodes(m, u, hashes).value;
              && after.totp == m.totp && after.passkeys == m.passkeys
              && Remaining(after, u, hashes, {}) && (u != v ==> OfUser(after.codes, v) == OfUser(m.codes, v))
  {
    ReplacedCodes(m, u, hashes, v);
    BatchRemains(m, u, hashes);
  }

  /** A setup is begun exactly without a confirmed TOTP; its secret is not confirmed yet, so no
      code is accepted for it at a login. */
  lemma SetupIff(c: Crypto, m: Tables, u: int, secret: string, code: string, at: int)
    ensures SetupTotp(m, u, secret).Success? <==> !(u in m.totp && m.totp[u].confirmed)
    ensures SetupTotp(m, u, secret).Success? ==>
              var after := SetupTotp(m, u, secret).value;
              after == m.(totp := m.totp[u := Totp(secret, false)]) && !VerifyTotp(c, after, u, code, at)
  {
  }

  /** Why a request is refused. */
  lemma Refusals(c: Crypto, m: Tables, u: int, secret: string, code: string, at: int, hashes: seq<string>, uuid: string)
    ensures u in m.totp && m.totp[u].confirmed ==>
              && SetupTotp(m, u, secret) == Failure(AlreadyActive)
              && ConfirmTotp(c, m, u, code, at, hashes) == Failure(AlreadyActive)
    ensures u !in m.totp ==> ConfirmTotp(c, m, u, code, at, hashes) == Failure(NoSetup)
    ensures u in m.totp && !m.totp[u].confirmed && !c.totpValid(m.totp[u].secret, code, at) ==>
              ConfirmTotp(c, m, u, code, at, hashes) == Failure(WrongCode)
    ensures !(u in m.totp && m.totp[u].confirmed) ==> RegenerateCodes(m, u, hashes) == Failure(NotActive)
    ensures DeletePasskey(m, uuid, u).Failure? ==> DeletePasskey(m, uuid, u) == Failure(NotFound)
  {
  }

  /** After TOTP is turned off the user has neither TOTP nor codes, and everyone else has what they
      had. */
  lemma TurnedOff(m: Tables, u: int, v: int)
    ensures u !in DisableTotp(m, u).totp && OfUser(DisableTotp(m, u).codes, u) == []
    ensures DisableTotp(m, u).passkeys == m.passkeys
    ensures v != u ==>
              && (v in DisableTotp(m, u).totp <==> v in m.totp)
              && (v in m.totp ==> DisableTotp(m, u).totp[v] == m.totp[v])
              && OfUser(DisableTotp(m, u).codes, v) == OfUser(m.codes, v)
  {
    OfUserWithout(m.codes, u, u);
    OfUserWithout(m.codes, u, v);
  }

  /** The new count is noted on the passkey with the id, and nothing else changes. */
  lemma SignCountSet(m: Tables, id: int, count: int, i: nat)
    requires i < |m.passkeys|
    ensures var after := SetSignCount(m, id, count);
            && after == m.(passkeys := after.passkeys) && |after.passkeys| == |m.passkeys|
            && after.passkeys[i] == m.passkeys[i].(signCount := if m.passkeys[i].id == id then count else m.passkeys[i].signCount)
  {
  }

  lemma {:induction false} FoundFirst(passkeys: seq<Passkey>, i: nat)
    requires i < |passkeys| && forall k | 0 <= k < i :: passkeys[k].credentialId != passkeys[i].credentialId
    ensures FindCredential(passkeys, passkeys[i].credentialId) == Some(passkeys[i])
  {
    if i > 0 {
      assert passkeys[1..][i - 1] == passkeys[i];
      FoundFirst(passkeys[1..], i - 1);
    }
  }

  lemma {:induction false} FoundLast(passkeys: seq<Passkey>, p: Passkey)
    requires forall q <- passkeys :: q.credentialId != p.credentialId
    ensures FindCredential(passkeys + [p], p.credentialId) == Some(p)
  {
    if passkeys == [] {
      assert passkeys + [p] == [p];
    } else {
      assert (passkeys + [p])[1..] == passkeys[1..] + [p];
      FoundLast(passkeys[1..], p);
    }
  }

  /** A registered passkey is found by its credential id, and is its user's. */
  lemma RegisteredThenFound(m: Tables, p: Passkey, uuid: string)
    requires forall q <- m.passkeys :: q.credentialId != p.credentialId
    ensures var found := FindCredential(RegisterPasskey(m, p, uuid).passkeys, p.credentialId);
            && found.Some? && found.value.user == p.user && found.value.publicKey == p.publicKey
            && found.value.signCount == p.signCount && found.value.uuid == uuid
    ensures RegisterPasskey(m, p, uuid).passkeys[..|m.passkeys|] == m.passkeys && HasAnyMfa(RegisterPasskey(m, p, uuid), p.user)
  {
    FoundLast(m.passkeys, p.(id := m.nextPasskey, uuid := uuid));
    assert RegisterPasskey(m, p, uuid).passkeys[|m.passkeys|].user == p.user;
    HasMfaIff(RegisterPasskey(m, p, uuid), p.user);
  }

  // ---- Displayed codes ----

  /** The user's codes carry these hashes, and those at the given places are used. */
  ghost predicate Remaining(m: Tables, u: int, hashes: seq<string>, used: set<int>) {
    var own := OfUser(m.codes, u);
    |own| == |hashes| && forall i | 0 <= i < |own| :: own[i].hash == hashes[i] && (own[i].used <==> i in used)
  }

  /** Each code matches its own hash only. */
  predicate Separate(c: Crypto, codes: seq<string>, hashes: seq<string>) {
    && |codes| == |hashes|
    && forall i, j | 0 <= i < |codes| && 0 <= j < |hashes| :: c.codeMatches(codes[i], hashes[j]) <==> i == j
  }

  lemma BatchRemains(m: Tables, u: int, hashes: seq<string>)
    ensures Remaining(ReplaceCodes(m, u, hashes), u, hashes, {})
  {
    ReplacedCodes(m, u, hashes, u);
  }

  lemma {:induction false} UnusedOfUser(codes: seq<Code>, u: int, r: Code)
    ensures r in OfUser(codes, u) <==> r in codes && r.user == u
  {
    if codes != [] {
      assert codes == codes[..|codes| - 1] + [codes[|codes| - 1]];
      UnusedOfUser(codes[..|codes| - 1], u, r);
    }
  }

  lemma {:induction false} OwnDistinct(codes: seq<Code>, u: int)
    requires DistinctIds(codes)
    ensures DistinctIds(OfUser(codes, u))
  {
    if codes != [] {
      var front, last := codes[..|codes| - 1], codes[|codes| - 1];
      OwnDistinct(front, u);
      forall r | r in OfUser(front, u) ensures r.id != last.id {
        UnusedOfUser(front, u, r);
        var i :| 0 <= i < |front| && front[i] == r;
      }
    }
  }

  lemma MatchIsOwn(c: Crypto, m: Tables, u: int, codes: seq<string>, hashes: seq<string>, used: set<int>, k: int)
    requires Separate(c, codes, hashes) && Remaining(m, u, hashes, used) && 0 <= k < |codes|
    ensures VerifiesRecovery(c, m, u, codes[k]) <==> k !in used
    ensures k !in used ==> FirstMatch(c, Unused(m.codes, u), codes[k]).value == OfUser(m.codes, u)[k]
  {
    var own, unused := OfUser(m.codes, u), Unused(m.codes, u);
    FirstMatches(c, unused, codes[k]);
    if k !in used {
      UnusedOfUser(m.codes, u, own[k]);
      UnusedMembers(m.codes, u, own[k]);
      assert own[k] in unused;
    }
    if VerifiesRecovery(c, m, u, codes[k]) {
      var r := FirstMatch(c, unused, codes[k]).value;
      UnusedMembers(m.codes, u, r);
      UnusedOfUser(m.codes, u, r);
      var i :| 0 <= i < |own| && own[i] == r;
      assert i == k;
    }
  }

  /** Each code that was shown when the batch was made is accepted once, whatever the order. */
  lemma EachCodeOnce(c: Crypto, m: Tables, u: int, codes: seq<string>, hashes: seq<string>, used: set<int>, k: int)
    requires NumberedCodes(m) && Separate(c, codes, hashes) && Remaining(m, u, hashes, used) && 0 <= k < |codes|
    ensures VerifiesRecovery(c, m, u, codes[k]) <==> k !in used
    ensures Remaining(UseRecovery(c, m, u, codes[k]), u, hashes, used + {k})
  {
    MatchIsOwn(c, m, u, codes, hashes, used, k);
    if k !in used {
      var own := OfUser(m.codes, u);
      OfUserMarked(m.codes, own[k].id, u);
      OwnDistinct(m.codes, u);
    }
  }
}
