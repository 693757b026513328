/**
 The team service over its tables. Each method checks and writes in the order
 of the code, and is proved to take the tables to the state of TeamMembership,
 or to throw that model's exception and leave them alone. What every run of
 calls keeps is proved there.
 */
module TeamService {
  import opened Common
  import opened TeamMembership
  import opened TeamEffects

  class TeamService {
    var users: map<string, Id>
    var workspaces: map<Id, Id>
    var workspaceMembers: map<At, WorkspaceRole>
    var teams: map<Id, Id>
    var members: map<At, Seat>
    var roles: map<Id, RolePolicy>
    var invites: map<Id, Invite>
    ghost var issued: set<Id>

    ghost function State(): TeamMembership.State
      reads this
    {
      TeamMembership.State.State(users, workspaces, workspaceMembers, teams, members, roles, invites, issued)
    }

    constructor (users: map<string, Id>)
      ensures Sound(State()) && State() == Fresh(users)
    {
      this.users := users;
      workspaces, workspaceMembers, teams, members, roles, invites := map[], map[], map[], map[], map[], map[];
      issued := {};
    }

    method CreateTeam(workspaceId: Id, user: Id, newTeam: Id) returns (r: Result<()>)
      requires newTeam !in issued
      modifies this
      ensures State() == Next(old(State()), Op.CreateTeam(workspaceId, user, newTeam))
      ensures r == Answer(Refusal(old(State()), Op.CreateTeam(workspaceId, user, newTeam)))
      ensures Answers(old(State()), Op.CreateTeam(workspaceId, user, newTeam), r)
      ensures r.Ok? ==> Writes(old(State()), Op.CreateTeam(workspaceId, user, newTeam), State())
    {
      hide Answers, Writes;
      RefusalAnswers(State(), Op.CreateTeam(workspaceId, user, newTeam));
      NextWrites(State(), Op.CreateTeam(workspaceId, user, newTeam));
      var found := false;
      if At(workspaceId, user) !in workspaceMembers {
        found := workspaceId in workspaces && workspaces[workspaceId] == user;
        if found {
          workspaceMembers := workspaceMembers[At(workspaceId, user) := WorkspaceOwner];
        }
      } else if workspaceMembers[At(workspaceId, user)] in {WorkspaceOwner, WorkspaceAdmin} {
        found := workspaceId in workspaces;
      }
      if !found { return Err(Forbidden); }
      teams := teams[newTeam := workspaceId];
      issued := issued + {newTeam};
      members := members[At(newTeam, user) := Seat(Owner, None)];
      return Ok(());
    }

    method CreateCustomRole(teamId: Id, actor: Id, permissions: seq<string>, newRole: Id) returns (r: Result<()>)
      requires newRole !in issued
      modifies this
      ensures State() == Next(old(State()), Op.CreateCustomRole(teamId, actor, permissions, newRole))
      ensures r == Answer(Refusal(old(State()), Op.CreateCustomRole(teamId, actor, permissions, newRole)))
      ensures Answers(old(State()), Op.CreateCustomRole(teamId, actor, permissions, newRole), r)
      ensures r.Ok? ==> Writes(old(State()), Op.CreateCustomRole(teamId, actor, permissions, newRole), State())
    {
      hide Answers, Writes;
      RefusalAnswers(State(), Op.CreateCustomRole(teamId, actor, permissions, newRole));
      NextWrites(State(), Op.CreateCustomRole(teamId, actor, permissions, newRole));
      var allowed := MemberHolds(teamId, actor, TEAM_UPDATE_ROLE);
      if !allowed { return Err(Forbidden); }
      var count := |set q | q in roles && roles[q].team == teamId && !roles[q].isSystem|;
      assert count == |CustomRoles(State(), teamId)| by {
        assert (set q | q in roles && roles[q].team == teamId && !roles[q].isSystem) == CustomRoles(State(), teamId);
      }
      if count >= 5 { return Err(Conflict); }
      roles := roles[newRole := RolePolicy(teamId, permissions, false)];
      issued := issued + {newRole};
      return Ok(());
    }

    /** The member row with its custom role, and whether it carries the permission. */
    method MemberHolds(teamId: Id, userId: Id, permission: string) returns (holds: bool)
      ensures holds == Holds(State(), teamId, userId, permission)
    {
      if At(teamId, userId) !in members { return false; }
      return HasTeamPermission(roles, members[At(teamId, userId)], permission);
    }

    method UpdateCustomRole(teamId: Id, roleId: Id, actor: Id, permissions: Option<seq<string>>) returns (r: Result<()>)
      modifies this`roles
      ensures State() == Next(old(State()), Op.UpdateCustomRole(teamId, roleId, actor, permissions))
      ensures r == Answer(Refusal(old(State()), Op.UpdateCustomRole(teamId, roleId, actor, permissions)))
      ensures Answers(old(State()), Op.UpdateCustomRole(teamId, roleId, actor, permissions), r)
      ensures r.Ok? ==> Writes(old(State()), Op.UpdateCustomRole(teamId, roleId, actor, permissions), State())
    {
      hide Answers, Writes;
      RefusalAnswers(State(), Op.UpdateCustomRole(teamId, roleId, actor, permissions));
      NextWrites(State(), Op.UpdateCustomRole(teamId, roleId, actor, permissions));
      var allowed := MemberHolds(teamId, actor, TEAM_UPDATE_ROLE);
      if !allowed { return Err(Forbidden); }
      if roleId !in roles || roles[roleId].team != teamId || roles[roleId].isSystem { return Err(NotFound); }
      if permissions.Some? {
        roles := roles[roleId := roles[roleId].(permissions := permissions.value)];
      }
      return Ok(());
    }

    method DeleteCustomRole(teamId: Id, roleId: Id, actor: Id) returns (r: Result<()>)
      modifies this`members, this`roles
      ensures State() == Next(old(State()), Op.DeleteCustomRole(teamId, roleId, actor))
      ensures r == Answer(Refusal(old(State()), Op.DeleteCustomRole(teamId, roleId, actor)))
      ensures Answers(old(State()), Op.DeleteCustomRole(teamId, roleId, actor), r)
      ensures r.Ok? ==> Writes(old(State()), Op.DeleteCustomRole(teamId, roleId, actor), State())
    {
      hide Answers, Writes;
      RefusalAnswers(State(), Op.DeleteCustomRole(teamId, roleId, actor));
      NextWrites(State(), Op.DeleteCustomRole(teamId, roleId, actor));
      var allowed := MemberHolds(teamId, actor, TEAM_UPDATE_ROLE);
      if !allowed { return Err(Forbidden); }
      if roleId !in roles || roles[roleId].team != teamId || roles[roleId].isSystem { return Err(NotFound); }
      TakeRoleAway(teamId, roleId);
      roles := roles - {roleId};
      return Ok(());
    }

    /** The bulk update that sets the column to null, row by row. */
    method TakeRoleAway(teamId: Id, roleId: Id)
      modifies this`members
      ensures members == WithoutRole(old(members), teamId, roleId)
      ensures members.Keys == old(members).Keys
      ensures forall k | k in members ::
                members[k] == if k.place == teamId && old(members)[k].customRole == Some(roleId)
                              then Seat(old(members)[k].role, None) else old(members)[k]
    {
      var was := members;
      var pending := was.Keys;
      while pending != {}
        invariant pending <= was.Keys && members.Keys == was.Keys
        invariant forall k | k in was ::
                    members[k] == if k in pending then was[k] else WithoutRole(was, teamId, roleId)[k]
      {
        var k :| k in pending;
        pending := pending - {k};
        if k.place == teamId && members[k].customRole == Some(roleId) {
          members := members[k := members[k].(customRole := None)];
        }
      }
    }

    method AssignCustomRole(teamId: Id, actor: Id, targetUserId: Id, roleId: Option<Id>) returns (r: Result<()>)
      modifies this`members
      ensures State() == Next(old(State()), Op.AssignCustomRole(teamId, actor, targetUserId, roleId))
      ensures r == Answer(Refusal(old(State()), Op.AssignCustomRole(teamId, actor, targetUserId, roleId)))
      ensures Answers(old(State()), Op.AssignCustomRole(teamId, actor, targetUserId, roleId), r)
      ensures r.Ok? ==> Writes(old(State()), Op.AssignCustomRole(teamId, actor, targetUserId, roleId), State())
    {
      hide Answers, Writes;
      RefusalAnswers(State(), Op.AssignCustomRole(teamId, actor, targetUserId, roleId));
      NextWrites(State(), Op.AssignCustomRole(teamId, actor, targetUserId, roleId));
      var allowed := MemberHolds(teamId, actor, TEAM_UPDATE_ROLE);
      if !allowed { return Err(Forbidden); }
      if actor == targetUserId { return Err(Forbidden); }
      var target := At(teamId, targetUserId);
      if target !in members { return Err(NotFound); }
      if members[target].role == Owner { return Err(Forbidden); }
      if roleId.None? {
        members := members[target := members[target].(customRole := None)];
        return Ok(());
      }
      if roleId.value !in roles || roles[roleId.value].team != teamId || roles[roleId.value].isSystem {
        return Err(NotFound);
      }
      members := members[target := members[target].(customRole := roleId)];
      return Ok(());
    }

    method InviteMember(teamId: Id, inviter: Id, email: string, role: TeamRole, newInvite: Id) returns (r: Result<()>)
      requires newInvite !in issued
      modifies this`invites, this`issued
      ensures State() == Next(old(State()), Op.InviteMember(teamId, inviter, email, role, newInvite))
      ensures r == Answer(Refusal(old(State()), Op.InviteMember(teamId, inviter, email, role, newInvite)))
      ensures Answers(old(State()), Op.InviteMember(teamId, inviter, email, role, newInvite), r)
      ensures r.Ok? ==> Writes(old(State()), Op.InviteMember(teamId, inviter, email, role, newInvite), State())
    {
      hide Answers, Writes;
      RefusalAnswers(State(), Op.InviteMember(teamId, inviter, email, role, newInvite));
      NextWrites(State(), Op.InviteMember(teamId, inviter, email, role, newInvite));
      var allowed := MemberHolds(teamId, inviter, TEAM_INVITE_MEMBER);
      if !allowed { return Err(Forbidden); }
      if email !in users { return Err(NotFound); }
      if email == "" { return Err(NotFound); }
      var invitee := users[email];
      if inviter == invitee { return Err(Conflict); }
      if At(teamId, invitee) in members { return Err(Conflict); }
      var alreadyInvited := exists i | i in invites ::
          invites[i].team == teamId && invites[i].invitee == invitee && invites[i].status == Pending;
      assert alreadyInvited == AlreadyInvited(State(), teamId, invitee) by {
        assert forall i :: PendingFor(State(), i, teamId, invitee) <==>
          i in invites && invites[i].team == teamId && invites[i].invitee == invitee && invites[i].status == Pending;
      }
      if alreadyInvited { return Err(Conflict); }
      invites := invites[newInvite := Invite(teamId, inviter, invitee, role, Pending)];
      issued := issued + {newInvite};
      return Ok(());
    }

    method UpdateMemberRole(teamId: Id, actor: Id, targetUserId: Id, role: TeamRole) returns (r: Result<()>)
      modifies this`members
      ensures State() == Next(old(State()), Op.UpdateMemberRole(teamId, actor, targetUserId, role))
      ensures r == Answer(Refusal(old(State()), Op.UpdateMemberRole(teamId, actor, targetUserId, role)))
      ensures Answers(old(State()), Op.UpdateMemberRole(teamId, actor, targetUserId, role), r)
      ensures r.Ok? ==> Writes(old(State()), Op.UpdateMemberRole(teamId, actor, targetUserId, role), State())
    {
      hide Answers, Writes;
      RefusalAnswers(State(), Op.UpdateMemberRole(teamId, actor, targetUserId, role));
      NextWrites(State(), Op.UpdateMemberRole(teamId, actor, targetUserId, role));
      if actor == targetUserId { return Err(Forbidden); }
      var allowed := MemberHolds(teamId, actor, TEAM_UPDATE_ROLE);
      if !allowed { return Err(Forbidden); }
      var target := At(teamId, targetUserId);
      if target !in members { return Err(NotFound); }
      if members[target].role == Owner { return Err(Forbidden); }
      if role == Owner { return Err(Forbidden); }
      if members[At(teamId, actor)].role == Manager {
        if members[target].role == Manager || role == Manager { return Err(Forbidden); }
      }
      members := members[target := members[target].(role := role, customRole := None)];
      return Ok(());
    }

    method RemoveMember(teamId: Id, actor: Id, targetUserId: Id) returns (r: Result<()>)
      modifies this`members, this`workspaceMembers
      ensures State() == Next(old(State()), Op.RemoveMember(teamId, actor, targetUserId))
      ensures r == Answer(Refusal(old(State()), Op.RemoveMember(teamId, actor, targetUserId)))
      ensures Answers(old(State()), Op.RemoveMember(teamId, actor, targetUserId), r)
      ensures r.Ok? ==> Writes(old(State()), Op.RemoveMember(teamId, actor, targetUserId), State())
    {
      hide Answers, Writes;
      RefusalAnswers(State(), Op.RemoveMember(teamId, actor, targetUserId));
      NextWrites(State(), Op.RemoveMember(teamId, actor, targetUserId));
      if actor == targetUserId { return Err(Forbidden); }
      var allowed := MemberHolds(teamId, actor, TEAM_INVITE_MEMBER);
      if !allowed { return Err(Forbidden); }
      var target := At(teamId, targetUserId);
      if target !in members { return Err(NotFound); }
      if members[target].role == Owner { return Err(Forbidden); }
      if members[At(teamId, actor)].role == Manager && members[target].role == Manager { return Err(Forbidden); }
      members := members - {target};
      if teamId in teams {
        var workspaceId := teams[teamId];
        var remainingTeams := |set t | t in teams && teams[t] == workspaceId && At(t, targetUserId) in members|;
        SeatsCounted(teams, members, workspaceId, targetUserId);
        if remainingTeams == 0 {
          var own := At(workspaceId, targetUserId);
          if own in workspaceMembers && workspaceMembers[own] != WorkspaceOwner {
            workspaceMembers := workspaceMembers - {own};
          }
        }
      }
      return Ok(());
    }

    method AcceptInvite(inviteId: Id, user: Id) returns (r: Result<()>)
      modifies this`invites, this`members, this`workspaceMembers
      ensures State() == Next(old(State()), Op.AcceptInvite(inviteId, user))
      ensures r == Answer(Refusal(old(State()), Op.AcceptInvite(inviteId, user)))
      ensures Answers(old(State()), Op.AcceptInvite(inviteId, user), r)
      ensures r.Ok? ==> Writes(old(State()), Op.AcceptInvite(inviteId, user), State())
    {
      hide Answers, Writes;
      RefusalAnswers(State(), Op.AcceptInvite(inviteId, user));
      NextWrites(State(), Op.AcceptInvite(inviteId, user));
      if inviteId !in invites || invites[inviteId].invitee != user || invites[inviteId].status != Pending {
        return Err(NotFound);
      }
      var invite := invites[inviteId];
      invites := invites[inviteId := invite.(status := Accepted)];
      members := members[At(invite.team, user) := Seat(invite.role, None)];
      if invite.team in teams {
        var own := At(teams[invite.team], user);
        if own !in workspaceMembers {
          workspaceMembers := workspaceMembers[own := if invite.role == Guest then WorkspaceGuest else WorkspaceMember];
        }
      }
      return Ok(());
    }

    method RejectInvite(inviteId: Id, user: Id) returns (r: Result<()>)
      modifies this`invites
      ensures State() == Next(old(State()), Op.RejectInvite(inviteId, user))
      ensures r == Answer(Refusal(old(State()), Op.RejectInvite(inviteId, user)))
      ensures Answers(old(State()), Op.RejectInvite(inviteId, user), r)
      ensures r.Ok? ==> Writes(old(State()), Op.RejectInvite(inviteId, user), State())
    {
      hide Answers, Writes;
      RefusalAnswers(State(), Op.RejectInvite(inviteId, user));
      NextWrites(State(), Op.RejectInvite(inviteId, user));
      if inviteId !in invites || invites[inviteId].invitee != user || invites[inviteId].status != Pending {
        return Err(NotFound);
      }
      invites := invites[inviteId := invites[inviteId].(status := Rejected)];
      return Ok(());
    }

    method DeleteTeam(teamId: Id) returns (r: Result<()>)
      modifies this`teams, this`members, this`roles, this`invites
      ensures State() == Next(old(State()), Op.DeleteTeam(teamId))
      ensures r == Answer(Refusal(old(State()), Op.DeleteTeam(teamId)))
      ensures Answers(old(State()), Op.DeleteTeam(teamId), r)
      ensures r.Ok? ==> Writes(old(State()), Op.DeleteTeam(teamId), State())
    {
      hide Answers, Writes, AfterDeleteTeam;
      RefusalAnswers(State(), Op.DeleteTeam(teamId));
      NextWrites(State(), Op.DeleteTeam(teamId));
      if teamId !in teams { return Err(NotFound); }
      DropTeam(teamId);
      return Ok(());
    }

    /** The row goes, and the foreign keys take along what names it. */
    method DropTeam(teamId: Id)
      modifies this`teams, this`members, this`roles, this`invites
      ensures State() == AfterDeleteTeam(old(State()), teamId)
    {
      teams := teams - {teamId};
      members := map k | k in members && k.place != teamId :: members[k];
      roles := map q | q in roles && roles[q].team != teamId :: roles[q];
      invites := map i | i in invites && invites[i].team != teamId :: invites[i];
    }
  }

  /** No seat counted means none is left in the workspace. */
  lemma SeatsCounted(teams: map<Id, Id>, members: map<At, Seat>, ws: Id, v: Id)
    ensures |set t | t in teams && teams[t] == ws && At(t, v) in members| == 0 <==> !SitsIn(teams, members, ws, v)
  {
    var seats := set t | t in teams && teams[t] == ws && At(t, v) in members;
    if SitsIn(teams, members, ws, v) {
      var t :| t in teams && teams[t] == ws && At(t, v) in members;
      assert t in seats;
    } else {
      assert seats == {};
    }
  }
}
