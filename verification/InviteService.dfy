/** The invite and organization services with their repositories as objects:
    rentivo/services/invite_service.py, rentivo/services/organization_service.py and the
    repositories they write. Every method is proved to do what Invites says of it. */
module InviteService {
  import opened Invites
  import opened Wrappers

  class UserRepository {
    var ids: map<string, int>

    constructor ()
      ensures ids == map[]
    {
      ids := map[];
    }

    method GetByUsername(username: string) returns (user: Option<int>)
      ensures user == if username in ids then Some(ids[username]) else None
    {
      user := if username in ids then Some(ids[username]) else None;
    }
  }

  class OrganizationRepository {
    var orgs: map<int, Org>
    var nextOrg: int
    var members: map<(int, int), string>

    constructor ()
      ensures orgs == map[] && nextOrg == 0 && members == map[]
    {
      orgs, nextOrg, members := map[], 0, map[];
    }

    method Create(name: string, creator: int) returns (id: int)
      modifies this`orgs, this`nextOrg
      ensures id == old(nextOrg) && nextOrg == id + 1 && orgs == old(orgs)[id := Org(name, creator, false)]
    {
      id := nextOrg;
      orgs := orgs[id := Org(name, creator, false)];
      nextOrg := nextOrg + 1;
    }

    /** Fails on the unique constraint and changes nothing then. */
    method InsertMember(org: int, user: int, role: string) returns (ok: bool)
      modifies this`members
      ensures ok == ((org, user) !in old(members))
      ensures members == if ok then old(members)[(org, user) := role] else old(members)
    {
      ok := (org, user) !in members;
      if ok {
        members := members[(org, user) := role];
      }
    }

    method DeleteMember(org: int, user: int)
      modifies this`members
      ensures members == map k | k in old(members) && k != (org, user) :: old(members)[k]
    {
      members := members - {(org, user)};
    }
  }

  class InviteRepository {
    var rows: seq<Invite>
    var nextId: int

    constructor ()
      ensures rows == [] && nextId == 0
    {
      rows, nextId := [], 0;
    }

    /** A row that refers to no organization is refused. */
    method Create(org: int, orgExists: bool, user: int, inviter: int, role: string, uuid: string) returns (ok: bool)
      modifies this
      ensures ok == orgExists
      ensures rows == if ok then old(rows) + [Invite(old(nextId), uuid, org, user, inviter, role, Pending)] else old(rows)
      ensures nextId == if ok then old(nextId) + 1 else old(nextId)
    {
      ok := orgExists;
      if ok {
        rows := rows + [Invite(nextId, uuid, org, user, inviter, role, Pending)];
        nextId := nextId + 1;
      }
    }

    method HasPendingInvite(org: int, user: int) returns (yes: bool)
      ensures yes == (PendingCount(rows, org, user) > 0)
    {
      var count := 0;
      for i := 0 to |rows|
        invariant count == PendingCount(rows[..i], org, user)
      {
        assert rows[..i + 1][..i] == rows[..i];
        if rows[i].org == org && rows[i].user == user && rows[i].status == Pending {
          count := count + 1;
        }
      }
      assert rows[..|rows|] == rows;
      yes := count > 0;
    }

    method UpdateStatus(id: int, status: Status)
      modifies this`rows
      ensures rows == SetStatus(old(rows), id, status)
    {
      rows := SetStatus(rows, id, status);
    }
  }

  class Services {
    const users: UserRepository
    const orgs: OrganizationRepository
    const invites: InviteRepository

    constructor ()
      ensures View() == EMPTY && fresh(users) && fresh(orgs) && fresh(invites)
    {
      users := new UserRepository();
      orgs := new OrganizationRepository();
      invites := new InviteRepository();
    }

    function View(): Tables
      reads users, orgs, invites
    {
      Tables(users.ids, orgs.orgs, orgs.nextOrg, orgs.members, invites.rows, invites.nextId)
    }

    ghost predicate Did(r: Result<Tables, Error>, before: Tables, error: Option<Error>)
      reads users, orgs, invites
    {
      View() == OrElse(r, before) && match error case None => r.Success? case Some(e) => r == Failure(e)
    }

    /** The creator becomes the first member; keeps the invariant of the tables. */
    method CreateOrganization(name: string, creator: int) returns (id: int)
      requires Inv(View())
      modifies orgs
      ensures CreateOrg(old(View()), name, creator) == Success(View()) && id == old(View()).nextOrg
      ensures Inv(View())
    {
      CreateKeeps(View(), name, creator);
      id := orgs.Create(name, creator);
      var ok := orgs.InsertMember(id, creator, ADMIN);
    }

    method SendInvite(org: int, username: string, role: string, inviter: int, uuid: string) returns (error: Option<Error>)
      modifies invites
      ensures Did(Send(old(View()), org, username, role, inviter, uuid), old(View()), error)
      ensures old(Inv(View())) ==> Inv(View())
    {
      if Inv(View()) {
        StepKeeps(View(), Invitation(org, username, role, inviter, uuid));
      }
      var user := users.GetByUsername(username);
      if user.None? {
        return Some(UnknownUser);
      }
      if (org, user.value) in orgs.members {
        return Some(AlreadyMember);
      }
      var pending := invites.HasPendingInvite(org, user.value);
      if pending {
        return Some(AlreadyInvited);
      }
      var ok := invites.Create(org, org in orgs.orgs, user.value, inviter, role, uuid);
      error := if ok then None else Some(UnknownOrg);
    }

    /** In a state that keeps the invariant the insert does not fail. */
    method AcceptInvite(uuid: string, user: int) returns (error: Option<Error>)
      modifies orgs, invites
      ensures Did(Accept(old(View()), uuid, user), old(View()), error)
      ensures old(Inv(View())) ==> Inv(View()) && error != Some(UniqueViolation)
    {
      if Inv(View()) {
        StepKeeps(View(), Acceptance(uuid, user));
        AcceptNeverViolates(View(), uuid, user);
      }
      var invite := FindInvite(invites.rows, uuid);
      if invite.None? {
        return Some(InviteNotFound);
      }
      if invite.value.user != user {
        return Some(NotAuthorized);
      }
      if invite.value.status != Pending {
        return Some(NoLongerPending);
      }
      var ok := orgs.InsertMember(invite.value.org, invite.value.user, invite.value.role);
      if !ok {
        return Some(UniqueViolation);
      }
      invites.UpdateStatus(invite.value.id, Accepted);
      error := None;
    }

    method DeclineInvite(uuid: string, user: int) returns (error: Option<Error>)
      modifies invites
      ensures Did(Decline(old(View()), uuid, user), old(View()), error)
      ensures old(Inv(View())) ==> Inv(View())
    {
      if Inv(View()) {
        StepKeeps(View(), Refusal(uuid, user));
      }
      var invite := FindInvite(invites.rows, uuid);
      if invite.None? {
        return Some(InviteNotFound);
      }
      if invite.value.user != user {
        return Some(NotAuthorized);
      }
      if invite.value.status != Pending {
        return Some(NoLongerPending);
      }
      invites.UpdateStatus(invite.value.id, Declined);
      error := None;
    }

    method RemoveOrgMember(org: int, user: int)
      modifies orgs
      ensures View() == RemoveMember(old(View()), org, user)
      ensures old(Inv(View())) ==> Inv(View())
    {
      if Inv(View()) {
        StepKeeps(View(), Removal(org, user));
      }
      orgs.DeleteMember(org, user);
    }
  }
}
