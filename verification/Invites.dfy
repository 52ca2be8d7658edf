/** Organizations, their members and invites: what rentivo/services/invite_service.py and
    rentivo/services/organization_service.py do to the tables. */
module Invites {
  import opened Wrappers

  datatype Status = Pending | Accepted | Declined

  datatype Invite = Invite(id: int, uuid: string, org: int, user: int, inviter: int, role: string, status: Status)

  datatype Org = Org(name: string, createdBy: int, deleted: bool)

  /** Members by organization and user, which are unique together; users by name. */
  datatype Tables = Tables(
    users: map<string, int>, orgs: map<int, Org>, nextOrg: int, members: map<(int, int), string>,
    invites: seq<Invite>, nextInvite: int)

  datatype Error =
    | UnknownUser | AlreadyMember | AlreadyInvited | InviteNotFound | NotAuthorized | NoLongerPending
    | UniqueViolation | UnknownOrg

  const ADMIN := "admin"

  const EMPTY := Tables(map[], map[], 0, map[], [], 0)

  // ---- Queries ----

  function PendingCount(rows: seq<Invite>, org: int, user: int): nat {
    if rows == [] then 0
    else
      var last := rows[|rows| - 1];
      PendingCount(rows[..|rows| - 1], org, user)
      + if last.org == org && last.user == user && last.status == Pending then 1 else 0
  }

  function FindInvite(rows: seq<Invite>, uuid: string): (r: Option<Invite>)
    ensures r.Some? ==> r.value in rows && r.value.uuid == uuid
  {
    if rows == [] then None
    else if rows[0].uuid == uuid then Some(rows[0])
    else
      assert rows == [rows[0]] + rows[1..];
      FindInvite(rows[1..], uuid)
  }

  function SetStatus(rows: seq<Invite>, id: int, status: Status): seq<Invite> {
    seq(|rows|, i requires 0 <= i < |rows| => if rows[i].id == id then rows[i].(status := status) else rows[i])
  }

  // ---- Operations ----

  /** The unique constraint on organization and user refuses a second row. */
  function AddMember(m: Tables, org: int, user: int, role: string): Result<Tables, Error> {
    if (org, user) in m.members then Failure(UniqueViolation)
    else Success(m.(members := m.members[(org, user) := role]))
  }

  function CreateOrg(m: Tables, name: string, inviter: int): Result<Tables, Error> {
    AddMember(m.(orgs := m.orgs[m.nextOrg := Org(name, inviter, false)], nextOrg := m.nextOrg + 1), m.nextOrg, inviter, ADMIN)
  }

  function Send(m: Tables, org: int, username: string, role: string, inviter: int, uuid: string): Result<Tables, Error> {
    if username !in m.users then Failure(UnknownUser)
    else
      var user := m.users[username];
      if (org, user) in m.members then Failure(AlreadyMember)
      else if PendingCount(m.invites, org, user) > 0 then Failure(AlreadyInvited)
      else if org !in m.orgs then Failure(UnknownOrg)
      else Success(m.(invites := m.invites + [Invite(m.nextInvite, uuid, org, user, inviter, role, Pending)],
                      nextInvite := m.nextInvite + 1))
  }

  /** The invite that a user may still answer. */
  function Answerable(m: Tables, uuid: string, user: int): Result<Invite, Error> {
    match FindInvite(m.invites, uuid)
    case None => Failure(InviteNotFound)
    case Some(i) =>
      if i.user != user then Failure(NotAuthorized)
      else if i.status != Pending then Failure(NoLongerPending)
      else Success(i)
  }

  function Accept(m: Tables, uuid: string, user: int): Result<Tables, Error> {
    match Answerable(m, uuid, user)
    case Failure(e) => Failure(e)
    case Success(i) =>
      match AddMember(m, i.org, i.user, i.role)
      case Failure(e) => Failure(e)
      case Success(joined) => Success(joined.(invites := SetStatus(joined.invites, i.id, Accepted)))
  }

  function Decline(m: Tables, uuid: string, user: int): Result<Tables, Error> {
    match Answerable(m, uuid, user)
    case Failure(e) => Failure(e)
    case Success(i) => Success(m.(invites := SetStatus(m.invites, i.id, Declined)))
  }

  function RemoveMember(m: Tables, org: int, user: int): Tables {
    m.(members := map k | k in m.members && k != (org, user) :: m.members[k])
  }

  function SetRole(m: Tables, org: int, user: int, role: string): Tables {
    if (org, user) in m.members then m.(members := m.members[(org, user) := role]) else m
  }

  function DeleteOrg(m: Tables, org: int): Tables {
    if org in m.orgs then m.(orgs := m.orgs[org := m.orgs[org].(deleted := true)]) else m
  }

  // ---- Runs ----

  datatype Op =
    | NewUser(username: string, user: int)
    | NewOrg(name: string, inviter: int)
    | Invitation(org: int, username: string, role: string, inviter: int, uuid: string)
    | Acceptance(uuid: string, user: int)
    | Refusal(uuid: string, user: int)
    | Removal(org: int, user: int)
    | RoleChange(org: int, user: int, role: string)
    | Deletion(org: int)

  function OrElse(r: Result<Tables, Error>, m: Tables): Tables {
    match r
    case Success(after) => after
    case Failure(_) => m
  }

  function Step(m: Tables, op: Op): Tables {
    match op
    case NewUser(username, user) => if username in m.users then m else m.(users := m.users[username := user])
    case NewOrg(name, inviter) => OrElse(CreateOrg(m, name, inviter), m)
    case Invitation(org, username, role, inviter, uuid) => OrElse(Send(m, org, username, role, inviter, uuid), m)
    case Acceptance(uuid, user) => OrElse(Accept(m, uuid, user), m)
    case Refusal(uuid, user) => OrElse(Decline(m, uuid, user), m)
    case Removal(org, user) => RemoveMember(m, org, user)
    case RoleChange(org, user, role) => SetRole(m, org, user, role)
    case Deletion(org) => DeleteOrg(m, org)
  }

  function Run(ops: seq<Op>): Tables {
    if ops == [] then EMPTY else Step(Run(ops[..|ops| - 1]), ops[|ops| - 1])
  }

  // ---- Counting pending invites ----

  ghost predicate Numbered(m: Tables) {
    && (forall i, j | 0 <= i < j < |m.invites| :: m.invites[i].id != m.invites[j].id)
    && (forall i | 0 <= i < |m.invites| :: m.invites[i].id < m.nextInvite)
  }

  lemma PendingSnoc(rows: seq<Invite>, last: Invite, org: int, user: int)
    ensures PendingCount(rows + [last], org, user)
         == PendingCount(rows, org, user) + if last.org == org && last.user == user && last.status == Pending then 1 else 0
  {
    assert (rows + [last])[..|rows|] == rows;
  }

  lemma {:induction false} PendingWitness(rows: seq<Invite>, i: Invite)
    requires i in rows && i.status == Pending
    ensures PendingCount(rows, i.org, i.user) > 0
  {
    var front, last := rows[..|rows| - 1], rows[|rows| - 1];
    assert rows == front + [last];
    if last != i {
      PendingWitness(front, i);
    }
  }

  lemma StatusAbsent(rows: seq<Invite>, id: int, status: Status)
    requires forall i | 0 <= i < |rows| :: rows[i].id != id
    ensures SetStatus(rows, id, status) == rows
  {
  }

  lemma StatusSnoc(rows: seq<Invite>, last: Invite, id: int, status: Status)
    ensures SetStatus(rows + [last], id, status)
         == SetStatus(rows, id, status) + [if last.id == id then last.(status := status) else last]
  {
  }

  /** Answering an invite takes exactly it out of the pending ones. */
  lemma {:induction false} AnswerTakesOne(rows: seq<Invite>, r: Invite, status: Status, org: int, user: int)
    requires forall i, j | 0 <= i < j < |rows| :: rows[i].id != rows[j].id
    requires r in rows && r.status == Pending && status != Pending
    ensures PendingCount(SetStatus(rows, r.id, status), org, user)
         == PendingCount(rows, org, user) - if r.org == org && r.user == user then 1 else 0
  {
    var front, last := rows[..|rows| - 1], rows[|rows| - 1];
    assert rows == front + [last];
    StatusSnoc(front, last, r.id, status);
    PendingSnoc(SetStatus(front, r.id, status), if last.id == r.id then last.(status := status) else last, org, user);
    if last == r {
      StatusAbsent(front, r.id, status);
    } else {
      assert r in front;
      assert last.id != r.id;
      AnswerTakesOne(front, r, status, org, user);
    }
  }

  // ---- The invariant ----

  /** At most one pending invite for an organization and a user, and none for a member. */
  ghost predicate OnePending(m: Tables) {
    forall org: int, user: int ::
      PendingCount(m.invites, org, user) <= if (org, user) in m.members then 0 else 1
  }

  ghost predicate HasAccepted(rows: seq<Invite>, org: int, user: int) {
    exists i | 0 <= i < |rows| :: rows[i].org == org && rows[i].user == user && rows[i].status == Accepted
  }

  /** Every member created the organization or accepted an invite to it. */
  ghost predicate MembersJoined(m: Tables) {
    forall k <- m.members ::
      && k.0 in m.orgs && k.0 < m.nextOrg
      && (m.orgs[k.0].createdBy == k.1 || HasAccepted(m.invites, k.0, k.1))
  }

  ghost predicate KnownOrgs(m: Tables) {
    && (forall o <- m.orgs :: o < m.nextOrg)
    && (forall i | 0 <= i < |m.invites| :: m.invites[i].org in m.orgs)
  }

  ghost predicate Inv(m: Tables) {
    Numbered(m) && OnePending(m) && MembersJoined(m) && KnownOrgs(m)
  }

  lemma {:induction false} NoInvites(rows: seq<Invite>, org: int, user: int)
    requires forall i | 0 <= i < |rows| :: rows[i].org != org
    ensures PendingCount(rows, org, user) == 0
  {
    if rows != [] {
      NoInvites(rows[..|rows| - 1], org, user);
    }
  }

  lemma CreateKeeps(m: Tables, name: string, inviter: int)
    requires Inv(m)
    ensures CreateOrg(m, name, inviter).Success? && Inv(CreateOrg(m, name, inviter).value)
  {
    assert (m.nextOrg, inviter) !in m.members;
    forall i | 0 <= i < |m.invites| ensures m.invites[i].org != m.nextOrg {
      assert m.invites[i].org in m.orgs;
    }
    NoInvites(m.invites, m.nextOrg, inviter);
  }

  lemma SendKeeps(m: Tables, org: int, username: string, role: string, inviter: int, uuid: string)
    requires Inv(m) && Send(m, org, username, role, inviter, uuid).Success?
    ensures Inv(Send(m, org, username, role, inviter, uuid).value)
  {
    var after := Send(m, org, username, role, inviter, uuid).value;
    var last := Invite(m.nextInvite, uuid, org, m.users[username], inviter, role, Pending);
    forall o: int, u: int ensures PendingCount(after.invites, o, u) <= if (o, u) in after.members then 0 else 1 {
      PendingSnoc(m.invites, last, o, u);
    }
    MoreInvites(m, [last], after);
  }

  lemma MoreInvites(m: Tables, more: seq<Invite>, after: Tables)
    requires MembersJoined(m) && after.invites == m.invites + more
    requires after.members == m.members && after.orgs == m.orgs && after.nextOrg == m.nextOrg
    ensures MembersJoined(after)
  {
    forall k | k in after.members && HasAccepted(m.invites, k.0, k.1) ensures HasAccepted(after.invites, k.0, k.1) {
      var i :| 0 <= i < |m.invites| && m.invites[i].org == k.0 && m.invites[i].user == k.1 && m.invites[i].status == Accepted;
      assert after.invites[i] == m.invites[i];
    }
  }

  /** An answer changes the pending count of its own pair only, and no earlier answer. */
  lemma AnswerKeeps(m: Tables, r: Invite, status: Status)
    requires Inv(m) && r in m.invites && r.status == Pending && status != Pending
    ensures var after := m.(invites := SetStatus(m.invites, r.id, status));
            Inv(after) && PendingCount(after.invites, r.org, r.user) == 0
  {
    var after := m.(invites := SetStatus(m.invites, r.id, status));
    forall o: int, u: int ensures PendingCount(after.invites, o, u) <= PendingCount(m.invites, o, u) {
      AnswerTakesOne(m.invites, r, status, o, u);
    }
    AnswerTakesOne(m.invites, r, status, r.org, r.user);
    assert PendingCount(m.invites, r.org, r.user) <= 1;
    assert OnePending(after);
    forall k | k in after.members && HasAccepted(m.invites, k.0, k.1) ensures HasAccepted(after.invites, k.0, k.1) {
      AcceptedStays(m, r, status, k.0, k.1);
    }
  }

  lemma AcceptedStays(m: Tables, r: Invite, status: Status, org: int, user: int)
    requires Numbered(m) && r in m.invites && r.status == Pending && HasAccepted(m.invites, org, user)
    ensures HasAccepted(SetStatus(m.invites, r.id, status), org, user)
  {
    var i :| 0 <= i < |m.invites| && m.invites[i].org == org && m.invites[i].user == user && m.invites[i].status == Accepted;
    var j :| 0 <= j < |m.invites| && m.invites[j] == r;
    assert SetStatus(m.invites, r.id, status)[i] == m.invites[i];
  }

  /** In a well-kept state accepting a pending invite never meets the unique constraint. */
  lemma AcceptNeverViolates(m: Tables, uuid: string, user: int)
    requires OnePending(m)
    ensures Accept(m, uuid, user).Success? <==> Answerable(m, uuid, user).Success?
    ensures Accept(m, uuid, user) != Failure(UniqueViolation)
  {
    if Answerable(m, uuid, user).Success? {
      var i := Answerable(m, uuid, user).value;
      PendingWitness(m.invites, i);
    }
  }

  lemma AcceptKeeps(m: Tables, uuid: string, user: int)
    requires Inv(m) && Accept(m, uuid, user).Success?
    ensures Inv(Accept(m, uuid, user).value)
  {
    var i := Answerable(m, uuid, user).value;
    var answered := m.(invites := SetStatus(m.invites, i.id, Accepted));
    AnswerKeeps(m, i, Accepted);
    var after := Accept(m, uuid, user).value;
    assert after == answered.(members := answered.members[(i.org, i.user) := i.role]);
    var k :| 0 <= k < |m.invites| && m.invites[k] == i;
    assert after.invites[k] == i.(status := Accepted);
    assert HasAccepted(after.invites, i.org, i.user);
  }

  lemma StepKeeps(m: Tables, op: Op)
    requires Inv(m)
    ensures Inv(Step(m, op))
  {
    match op {
      case NewOrg(name, inviter) => CreateKeeps(m, name, inviter);
      case Invitation(org, username, role, inviter, uuid) =>
        if Send(m, org, username, role, inviter, uuid).Success? {
          SendKeeps(m, org, username, role, inviter, uuid);
        }
      case Acceptance(uuid, user) => if Accept(m, uuid, user).Success? { AcceptKeeps(m, uuid, user); }
      case Refusal(uuid, user) =>
        if Answerable(m, uuid, user).Success? {
          AnswerKeeps(m, Answerable(m, uuid, user).value, Declined);
        }
      case _ => SmallStepKeeps(m, op);
    }
  }

  lemma SmallStepKeeps(m: Tables, op: Op)
    requires Inv(m) && (op.NewUser? || op.Removal? || op.RoleChange? || op.Deletion?)
    ensures Inv(Step(m, op))
  {
  }

  /** In every state that can be reached, an organization has at most one pending invite for a
      user, members have none, and every member created the organization or accepted an invite. */
  lemma {:induction false} InvAlways(ops: seq<Op>)
    ensures Inv(Run(ops))
  {
    if ops != [] {
      InvAlways(ops[..|ops| - 1]);
      StepKeeps(Run(ops[..|ops| - 1]), ops[|ops| - 1]);
    }
  }

  /** So every pending invite can be accepted by its user, at any time. */
  lemma PendingCanBeAccepted(ops: seq<Op>, uuid: string, user: int)
    ensures Accept(Run(ops), uuid, user) != Failure(UniqueViolation)
    ensures Answerable(Run(ops), uuid, user).Success? ==> Accept(Run(ops), uuid, user).Success?
  {
    InvAlways(ops);
    AcceptNeverViolates(Run(ops), uuid, user);
  }

  lemma {:induction false} FindLast(rows: seq<Invite>, i: Invite)
    requires forall r <- rows :: r.uuid != i.uuid
    ensures FindInvite(rows + [i], i.uuid) == Some(i)
  {
    if rows == [] {
      assert rows + [i] == [i];
    } else {
      assert (rows + [i])[0] == rows[0] && (rows + [i])[1..] == rows[1..] + [i];
      FindLast(rows[1..], i);
    }
  }

  /** An invite is sent exactly when the user is known, is no member, has no pending invite, and
      the organization exists; and then it can be answered, by that user only. */
  lemma SentCanBeAnswered(m: Tables, org: int, username: string, role: string, inviter: int, uuid: string)
    requires forall r <- m.invites :: r.uuid != uuid
    ensures Send(m, org, username, role, inviter, uuid).Success? <==>
              && username in m.users && (org, m.users[username]) !in m.members
              && PendingCount(m.invites, org, m.users[username]) == 0 && org in m.orgs
    ensures Send(m, org, username, role, inviter, uuid).Success? ==>
              var after := Send(m, org, username, role, inviter, uuid).value;
              forall u: int :: Answerable(after, uuid, u).Success? <==> u == m.users[username]
  {
    if Send(m, org, username, role, inviter, uuid).Success? {
      FindLast(m.invites, Invite(m.nextInvite, uuid, org, m.users[username], inviter, role, Pending));
    }
  }

  /** Sent and accepted, an invite makes its user a member with the role it names; sent and
      declined, it leaves the members as they were and the user free to be invited again. */
  lemma SentThenAnswered(m: Tables, org: int, username: string, role: string, inviter: int, uuid: string)
    requires Inv(m) && (forall r <- m.invites :: r.uuid != uuid) && Send(m, org, username, role, inviter, uuid).Success?
    ensures var sent, user := Send(m, org, username, role, inviter, uuid).value, m.users[username];
            && Accept(sent, uuid, user).Success?
            && Accept(sent, uuid, user).value.members == m.members[(org, user) := role]
            && IsAnswered(Accept(sent, uuid, user).value, uuid, Accepted)
            && Decline(sent, uuid, user).Success?
            && Decline(sent, uuid, user).value.members == m.members
            && IsAnswered(Decline(sent, uuid, user).value, uuid, Declined)
            && PendingCount(Decline(sent, uuid, user).value.invites, org, user) == 0
  {
    var sent, user := Send(m, org, username, role, inviter, uuid).value, m.users[username];
    var i := Invite(m.nextInvite, uuid, org, user, inviter, role, Pending);
    SendKeeps(m, org, username, role, inviter, uuid);
    FindLast(m.invites, i);
    AcceptNeverViolates(sent, uuid, user);
    AnswerKeeps(sent, i, Declined);
    AnswerNoted(m.invites, i, Accepted);
    AnswerNoted(m.invites, i, Declined);
  }

  lemma {:induction false} PendingRow(rows: seq<Invite>, org: int, user: int)
    ensures PendingCount(rows, org, user) > 0 <==> exists r <- rows :: r.org == org && r.user == user && r.status == Pending
  {
    if rows != [] {
      PendingRow(rows[..|rows| - 1], org, user);
      assert rows == rows[..|rows| - 1] + [rows[|rows| - 1]];
    }
  }

  /** Why an invite is not sent, the first reason first, and the row that is added when it is. */
  lemma SendOutcome(m: Tables, org: int, username: string, role: string, inviter: int, uuid: string)
    ensures var r := Send(m, org, username, role, inviter, uuid);
            if username !in m.users then r == Failure(UnknownUser)
            else if (org, m.users[username]) in m.members then r == Failure(AlreadyMember)
            else if exists i <- m.invites :: i.org == org && i.user == m.users[username] && i.status == Pending then
              r == Failure(AlreadyInvited)
            else if org !in m.orgs then r == Failure(UnknownOrg)
            else
              r == Success(m.(invites := m.invites + [Invite(m.nextInvite, uuid, org, m.users[username], inviter, role, Pending)],
                              nextInvite := m.nextInvite + 1))
  {
    if username in m.users {
      PendingRow(m.invites, org, m.users[username]);
    }
  }

  lemma {:induction false} FoundByUuid(rows: seq<Invite>, i: Invite)
    requires i in rows && forall r <- rows :: r.uuid == i.uuid ==> r == i
    ensures FindInvite(rows, i.uuid) == Some(i)
  {
    if rows[0] != i {
      assert rows == [rows[0]] + rows[1..];
      FoundByUuid(rows[1..], i);
    }
  }

  lemma AnswerableIs(m: Tables, i: Invite, user: int)
    requires i in m.invites && forall r <- m.invites :: r.uuid == i.uuid ==> r == i
    ensures Answerable(m, i.uuid, user)
         == if i.user != user then Failure(NotAuthorized) else if i.status != Pending then Failure(NoLongerPending) else Success(i)
  {
    FoundByUuid(m.invites, i);
  }

  /** Why an answer is refused, whichever it is. */
  lemma AnswerRefusals(m: Tables, i: Invite, user: int)
    requires i in m.invites && forall r <- m.invites :: r.uuid == i.uuid ==> r == i
    ensures i.user != user ==>
              Accept(m, i.uuid, user) == Failure(NotAuthorized) && Decline(m, i.uuid, user) == Failure(NotAuthorized)
    ensures i.user == user && i.status != Pending ==>
              Accept(m, i.uuid, user) == Failure(NoLongerPending) && Decline(m, i.uuid, user) == Failure(NoLongerPending)
    ensures i.user == user && i.status == Pending ==> Decline(m, i.uuid, user).Success?
  {
    AnswerableIs(m, i, user);
  }

  lemma UnknownInvite(m: Tables, uuid: string, user: int)
    requires forall r <- m.invites :: r.uuid != uuid
    ensures Accept(m, uuid, user) == Failure(InviteNotFound) && Decline(m, uuid, user) == Failure(InviteNotFound)
  {
  }

  /** The invite with the uuid carries the answer. */
  predicate IsAnswered(m: Tables, uuid: string, status: Status) {
    FindInvite(m.invites, uuid).Some? && FindInvite(m.invites, uuid).value.status == status
  }

  lemma AnswerNoted(rows: seq<Invite>, i: Invite, status: Status)
    requires (forall r <- rows :: r.uuid != i.uuid) && forall k | 0 <= k < |rows| :: rows[k].id != i.id
    ensures FindInvite(SetStatus(rows + [i], i.id, status), i.uuid) == Some(i.(status := status))
  {
    StatusSnoc(rows, i, i.id, status);
    StatusAbsent(rows, i.id, status);
    FindLast(rows, i.(status := status));
  }

  /** A new organization has its creator as administrator, and no other membership changes. */
  lemma CreatedWithAdmin(m: Tables, name: string, inviter: int)
    requires Inv(m)
    ensures var after := CreateOrg(m, name, inviter).value;
            && CreateOrg(m, name, inviter).Success?
            && after.members == m.members[(m.nextOrg, inviter) := "admin"]
            && m.nextOrg in after.orgs && after.orgs[m.nextOrg] == Org(name, inviter, false) && after.invites == m.invites
  {
    CreateKeeps(m, name, inviter);
  }

  /** Removing a member takes out that membership, a new role changes it, and neither touches
      another; deleting an organization keeps the members. */
  lemma MembershipAfter(m: Tables, org: int, user: int, role: string, k: (int, int))
    ensures k in RemoveMember(m, org, user).members <==> k in m.members && k != (org, user)
    ensures k in RemoveMember(m, org, user).members ==> RemoveMember(m, org, user).members[k] == m.members[k]
    ensures k in SetRole(m, org, user, role).members <==> k in m.members
    ensures k in m.members ==> SetRole(m, org, user, role).members[k] == if k == (org, user) then role else m.members[k]
    ensures DeleteOrg(m, org).members == m.members && DeleteOrg(m, org).invites == m.invites
    ensures RemoveMember(m, org, user).invites == m.invites && SetRole(m, org, user, role).invites == m.invites
    ensures org in m.orgs ==> DeleteOrg(m, org).orgs == m.orgs[org := m.orgs[org].(deleted := true)]
  {
  }

  // ---- Answers are final ----

  /** Rows stay, and one that was answered stays as it is. */
  ghost predicate AnswersKept(before: seq<Invite>, after: seq<Invite>) {
    && |before| <= |after|
    && forall i | 0 <= i < |before| ::
         && after[i] == before[i].(status := after[i].status)
         && (before[i].status != Pending ==> after[i] == before[i])
  }

  lemma SetStatusKeepsAnswers(m: Tables, r: Invite, status: Status)
    requires Numbered(m) && r in m.invites && r.status == Pending
    ensures AnswersKept(m.invites, SetStatus(m.invites, r.id, status))
  {
    var j :| 0 <= j < |m.invites| && m.invites[j] == r;
  }

  lemma StepKeepsAnswers(m: Tables, op: Op)
    requires Numbered(m)
    ensures AnswersKept(m.invites, Step(m, op).invites)
  {
    match op {
      case Acceptance(uuid, user) =>
        if Answerable(m, uuid, user).Success? {
          SetStatusKeepsAnswers(m, Answerable(m, uuid, user).value, Accepted);
        }
      case Refusal(uuid, user) =>
        if Answerable(m, uuid, user).Success? {
          SetStatusKeepsAnswers(m, Answerable(m, uuid, user).value, Declined);
        }
      case _ =>
    }
  }

  /** Whatever happens after, an invite that was accepted or declined stays so. */
  lemma {:induction false} AnswersAreFinal(ops: seq<Op>, more: seq<Op>)
    ensures AnswersKept(Run(ops).invites, Run(ops + more).invites)
  {
    if more == [] {
      assert ops + more == ops;
    } else {
      var front := more[..|more| - 1];
      assert (ops + more)[..|ops + more| - 1] == ops + front;
      AnswersAreFinal(ops, front);
      InvAlways(ops + front);
      StepKeepsAnswers(Run(ops + front), more[|more| - 1]);
    }
  }

  // ---- Adding a member directly ----

  /** The organization service can also insert a member without an invite; the web never calls
      it so. The invariant survives exactly when no invite of that user is pending. */
  lemma DirectMemberKeepsPendingIff(m: Tables, org: int, user: int, role: string)
    requires OnePending(m) && AddMember(m, org, user, role).Success?
    ensures OnePending(AddMember(m, org, user, role).value) <==> PendingCount(m.invites, org, user) == 0
  {
    var after := AddMember(m, org, user, role).value;
    if OnePending(after) {
      assert (org, user) in after.members;
      assert PendingCount(after.invites, org, user) <= 0;
    }
  }
}
