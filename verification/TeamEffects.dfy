/**
 When each call of the team service is refused and what it writes, said without
 the functions that compute the exception and the next state.
 */
module TeamEffects {
  import opened Common
  import opened TeamMembership

  // -------------------------------------------------------------------- refusals

  /** The member's own custom role lists the permission, or it lists nothing and the team role leads. */
  predicate Permits(s: State, t: Id, u: Id, permission: string) {
    At(t, u) in s.members &&
    var seat := s.members[At(t, u)];
    if seat.customRole.Some? && seat.customRole.value in s.roles && |s.roles[seat.customRole.value].permissions| > 0
    then permission in s.roles[seat.customRole.value].permissions
    else
      && (seat.role == Owner || seat.role == Manager)
      && permission in {"TEAM_INVITE_MEMBER", "TEAM_UPDATE_ROLE", "TEAM_SETTINGS_UPDATE",
                        "PROJECT_CREATE_DELETE", "PROJECT_INVITE_MEMBER", "PROJECT_UPDATE_ROLE"}
  }

  predicate Sits(s: State, t: Id, u: Id) {
    At(t, u) in s.members
  }

  predicate SitsAs(s: State, t: Id, u: Id, role: TeamRole) {
    At(t, u) in s.members && s.members[At(t, u)].role == role
  }

  /** A role of that team that is not one of the system's. */
  predicate OwnRole(s: State, t: Id, r: Id) {
    r in s.roles && s.roles[r].team == t && s.roles[r].isSystem == false
  }

  ghost predicate PendingInvite(s: State, t: Id, u: Id) {
    exists i :: i in s.invites && s.invites[i].team == t && s.invites[i].invitee == u && s.invites[i].status == Pending
  }

  predicate Invited(s: State, i: Id, u: Id) {
    i in s.invites && s.invites[i].invitee == u && s.invites[i].status == Pending
  }

  /** The answer to a call about a custom role of the team. */
  ghost predicate AnswersOnRole(s: State, t: Id, r: Id, u: Id, answer: Result<()>) {
    && (answer == Err(Forbidden) <==> !Permits(s, t, u, "TEAM_UPDATE_ROLE"))
    && (answer == Err(NotFound) <==> Permits(s, t, u, "TEAM_UPDATE_ROLE") && !OwnRole(s, t, r))
    && (answer.Ok? <==> Permits(s, t, u, "TEAM_UPDATE_ROLE") && OwnRole(s, t, r))
  }

  /** Which calls succeed, and with what exception the others end. */
  ghost predicate Answers(s: State, op: Op, answer: Result<()>) {
    match op
    case CreateWorkspace(_, _) => answer.Ok?
    case CreateTeam(ws, u, _) =>
      && (answer.Ok? <==>
            ws in s.workspaces &&
            (|| (At(ws, u) in s.workspaceMembers && s.workspaceMembers[At(ws, u)] == WorkspaceOwner)
             || (At(ws, u) in s.workspaceMembers && s.workspaceMembers[At(ws, u)] == WorkspaceAdmin)
             || (At(ws, u) !in s.workspaceMembers && s.workspaces[ws] == u)))
      && (answer.Err? ==> answer.error == Forbidden)
    case CreateCustomRole(t, u, _, _) =>
      var few := |set r | r in s.roles && s.roles[r].team == t && !s.roles[r].isSystem| < 5;
      && (answer == Err(Forbidden) <==> !Permits(s, t, u, "TEAM_UPDATE_ROLE"))
      && (answer == Err(Conflict) <==> Permits(s, t, u, "TEAM_UPDATE_ROLE") && !few)
      && (answer.Ok? <==> Permits(s, t, u, "TEAM_UPDATE_ROLE") && few)
    case UpdateCustomRole(t, r, u, _) => AnswersOnRole(s, t, r, u, answer)
    case DeleteCustomRole(t, r, u) => AnswersOnRole(s, t, r, u, answer)
    case AssignCustomRole(t, u, v, given) =>
      var may, known := Permits(s, t, u, "TEAM_UPDATE_ROLE") && u != v, given.None? || OwnRole(s, t, given.value);
      && (answer == Err(Forbidden) <==> !may || SitsAs(s, t, v, Owner))
      && (answer == Err(NotFound) <==> may && (!Sits(s, t, v) || (!SitsAs(s, t, v, Owner) && !known)))
      && (answer.Ok? <==> may && Sits(s, t, v) && !SitsAs(s, t, v, Owner) && known)
    case InviteMember(t, u, email, _, _) =>
      var may, known := Permits(s, t, u, "TEAM_INVITE_MEMBER"), email in s.users && email != "";
      && (answer == Err(Forbidden) <==> !may)
      && (answer == Err(NotFound) <==> may && !known)
      && (answer == Err(Conflict) <==>
            may && known && (s.users[email] == u || Sits(s, t, s.users[email]) || PendingInvite(s, t, s.users[email])))
      && (answer.Ok? <==>
            && may && known
            && s.users[email] != u && !Sits(s, t, s.users[email]) && !PendingInvite(s, t, s.users[email]))
    case UpdateMemberRole(t, u, v, to) =>
      var may := Permits(s, t, u, "TEAM_UPDATE_ROLE") && u != v;
      var ranks := SitsAs(s, t, u, Manager) && (SitsAs(s, t, v, Manager) || to == Manager);
      && (answer == Err(NotFound) <==> may && !Sits(s, t, v))
      && (answer == Err(Forbidden) <==>
            !may || (Sits(s, t, v) && (SitsAs(s, t, v, Owner) || to == Owner || ranks)))
      && (answer.Ok? <==> may && Sits(s, t, v) && !SitsAs(s, t, v, Owner) && to != Owner && !ranks)
    case RemoveMember(t, u, v) =>
      var may := Permits(s, t, u, "TEAM_INVITE_MEMBER") && u != v;
      var ranks := SitsAs(s, t, u, Manager) && SitsAs(s, t, v, Manager);
      && (answer == Err(NotFound) <==> may && !Sits(s, t, v))
      && (answer == Err(Forbidden) <==> !may || SitsAs(s, t, v, Owner) || (Sits(s, t, v) && ranks))
      && (answer.Ok? <==> may && Sits(s, t, v) && !SitsAs(s, t, v, Owner) && !ranks)
    case AcceptInvite(i, u) => (answer.Ok? <==> Invited(s, i, u)) && (answer.Err? ==> answer.error == NotFound)
    case RejectInvite(i, u) => (answer.Ok? <==> Invited(s, i, u)) && (answer.Err? ==> answer.error == NotFound)
    case DeleteTeam(t) => (answer.Ok? <==> t in s.teams) && (answer.Err? ==> answer.error == NotFound)
  }

  function Answer(refusal: Option<Error>): Result<()> {
    if refusal.Some? then Err(refusal.value) else Ok(())
  }

  lemma HoldsPermits(s: State, t: Id, u: Id, permission: string)
    ensures Holds(s, t, u, permission) <==> Permits(s, t, u, permission)
  {
  }

  /** The model refuses just so. */
  lemma RefusalAnswers(s: State, op: Op)
    ensures Answers(s, op, Answer(Refusal(s, op)))
  {
    hide Holds, Permits;
    match op
    case InviteMember(t, u, email, _, _) =>
      HoldsPermits(s, t, u, TEAM_INVITE_MEMBER);
      if email in s.users { AlreadyInvitedIsPending(s, t, s.users[email]); }
    case RemoveMember(t, u, _) =>
      HoldsPermits(s, t, u, TEAM_INVITE_MEMBER);
      PermittedSits(s, t, u, TEAM_INVITE_MEMBER);
    case UpdateMemberRole(t, u, _, _) =>
      HoldsPermits(s, t, u, TEAM_UPDATE_ROLE);
      PermittedSits(s, t, u, TEAM_UPDATE_ROLE);
    case CreateCustomRole(t, u, _, _) =>
      HoldsPermits(s, t, u, TEAM_UPDATE_ROLE);
      assert CustomRoles(s, t) == set r | r in s.roles && s.roles[r].team == t && !s.roles[r].isSystem;
    case UpdateCustomRole(t, _, u, _) => HoldsPermits(s, t, u, TEAM_UPDATE_ROLE);
    case DeleteCustomRole(t, _, u) => HoldsPermits(s, t, u, TEAM_UPDATE_ROLE);
    case AssignCustomRole(t, u, _, _) => HoldsPermits(s, t, u, TEAM_UPDATE_ROLE);
    case _ =>
  }

  lemma PermittedSits(s: State, t: Id, u: Id, permission: string)
    ensures Permits(s, t, u, permission) ==> Sits(s, t, u)
  {
  }

  lemma AlreadyInvitedIsPending(s: State, t: Id, u: Id)
    ensures AlreadyInvited(s, t, u) <==> PendingInvite(s, t, u)
  {
    if PendingInvite(s, t, u) {
      var i :| i in s.invites && s.invites[i].team == t && s.invites[i].invitee == u && s.invites[i].status == Pending;
      assert PendingFor(s, i, t, u);
    }
  }

  // --------------------------------------------------------------------- effects

  /** The team has a seat elsewhere in the workspace for `v`. */
  ghost predicate SitsElsewhere(s: State, ws: Id, t: Id, v: Id) {
    exists x :: x != t && x in s.teams && s.teams[x] == ws && At(x, v) in s.members
  }

  /** Of the workspace members only `own` may differ. */
  ghost predicate OnlyMembership(s: State, w: State, own: At) {
    forall k | k != own ::
      && (k in w.workspaceMembers <==> k in s.workspaceMembers)
      && (k in s.workspaceMembers && k in w.workspaceMembers ==> w.workspaceMembers[k] == s.workspaceMembers[k])
  }

  /** What a call that is not refused writes, row by row. */
  ghost predicate Writes(s: State, op: Op, w: State) {
    match op
    case CreateWorkspace(u, ws) =>
      w == s.(workspaces := s.workspaces[ws := u],
              workspaceMembers := s.workspaceMembers[At(ws, u) := WorkspaceOwner], issued := s.issued + {ws})
    case CreateTeam(ws, u, t) =>
      && w == s.(teams := s.teams[t := ws], members := s.members[At(t, u) := Seat(Owner, None)],
                 workspaceMembers := w.workspaceMembers, issued := s.issued + {t})
      && OnlyMembership(s, w, At(ws, u)) && At(ws, u) in w.workspaceMembers
      && w.workspaceMembers[At(ws, u)]
         == (if At(ws, u) in s.workspaceMembers then s.workspaceMembers[At(ws, u)] else WorkspaceOwner)
    case CreateCustomRole(t, _, permissions, r) =>
      w == s.(roles := s.roles[r := RolePolicy(t, permissions, false)], issued := s.issued + {r})
    case UpdateCustomRole(t, r, _, given) =>
      && r in s.roles
      && w == s.(roles := s.roles[r :=
                   RolePolicy(t, if given.Some? then given.value else s.roles[r].permissions, false)])
    case DeleteCustomRole(t, r, _) =>
      && w == s.(roles := s.roles - {r}, members := w.members) && w.members.Keys == s.members.Keys
      && forall k | k in s.members ::
           w.members[k] == Seat(s.members[k].role,
                                if k.place == t && s.members[k].customRole == Some(r) then None
                                else s.members[k].customRole)
    case AssignCustomRole(t, _, v, given) =>
      Sits(s, t, v) && w == s.(members := s.members[At(t, v) := Seat(s.members[At(t, v)].role, given)])
    case InviteMember(t, u, email, offered, i) =>
      && email in s.users
      && w == s.(invites := s.invites[i := Invite(t, u, s.users[email], offered, Pending)], issued := s.issued + {i})
    case UpdateMemberRole(t, _, v, to) => w == s.(members := s.members[At(t, v) := Seat(to, None)])
    case RemoveMember(t, _, v) =>
      && w == s.(members := s.members - {At(t, v)}, workspaceMembers := w.workspaceMembers)
      && if t !in s.teams then w.workspaceMembers == s.workspaceMembers
         else
           var own := At(s.teams[t], v);
           && OnlyMembership(s, w, own)
           && (own in w.workspaceMembers <==>
                 && own in s.workspaceMembers
                 && (s.workspaceMembers[own] == WorkspaceOwner || SitsElsewhere(s, s.teams[t], t, v)))
           && (own in w.workspaceMembers && own in s.workspaceMembers ==>
                 w.workspaceMembers[own] == s.workspaceMembers[own])
    case AcceptInvite(i, u) =>
      i in s.invites &&
      var v := s.invites[i];
      && w == s.(invites := s.invites[i := Invite(v.team, v.inviter, v.invitee, v.role, Accepted)],
                 members := s.members[At(v.team, u) := Seat(v.role, None)], workspaceMembers := w.workspaceMembers)
      && if v.team !in s.teams then w.workspaceMembers == s.workspaceMembers
         else
           var own := At(s.teams[v.team], u);
           && OnlyMembership(s, w, own) && own in w.workspaceMembers
           && w.workspaceMembers[own] == if own in s.workspaceMembers then s.workspaceMembers[own]
                                         else if v.role == Guest then WorkspaceGuest else WorkspaceMember
    case RejectInvite(i, _) =>
      i in s.invites &&
      var v := s.invites[i];
      w == s.(invites := s.invites[i := Invite(v.team, v.inviter, v.invitee, v.role, Rejected)])
    case DeleteTeam(t) =>
      && w == s.(teams := s.teams - {t}, members := w.members, roles := w.roles, invites := w.invites)
      && (forall k :: k in w.members <==> k in s.members && k.place != t)
      && (forall k | k in w.members :: w.members[k] == s.members[k])
      && (forall r :: r in w.roles <==> r in s.roles && s.roles[r].team != t)
      && (forall r | r in w.roles :: w.roles[r] == s.roles[r])
      && (forall i :: i in w.invites <==> i in s.invites && s.invites[i].team != t)
      && (forall i | i in w.invites :: w.invites[i] == s.invites[i])
  }

  /** The model writes just that, and nothing when it refuses. */
  lemma NextWrites(s: State, op: Op)
    ensures if Refusal(s, op).None? then Writes(s, op, Next(s, op)) else Next(s, op) == s
  {
    if Refusal(s, op).None? {
      if op.RemoveMember? {
        RemoveWrites(s, op);
      } else if op.DeleteTeam? || op.DeleteCustomRole? {
        DeleteWrites(s, op);
      } else {
        SavesWrite(s, op);
      }
    }
  }

  lemma SavesWrite(s: State, op: Op)
    requires !op.RemoveMember? && !op.DeleteTeam? && !op.DeleteCustomRole? && Refusal(s, op).None?
    ensures Writes(s, op, Next(s, op))
  {
  }

  lemma DeleteWrites(s: State, op: Op)
    requires (op.DeleteTeam? || op.DeleteCustomRole?) && Refusal(s, op).None?
    ensures Writes(s, op, Next(s, op))
  {
  }

  lemma RemoveWrites(s: State, op: Op)
    requires op.RemoveMember? && Refusal(s, op).None?
    ensures Writes(s, op, Next(s, op))
  {
    if op.team in s.teams {
      assert SitsIn(s.teams, s.members - {At(op.team, op.target)}, s.teams[op.team], op.target)
        <==> SitsElsewhere(s, s.teams[op.team], op.team, op.target);
    }
  }
}
