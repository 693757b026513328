/**
 Teams, their members, custom roles and invites, as a state machine over the
 calls of the team service.
 */
module TeamMembership {
  import opened Common

  datatype TeamRole = Owner | Manager | Member | Guest
  datatype WorkspaceRole = WorkspaceOwner | WorkspaceAdmin | WorkspaceMember | WorkspaceGuest
  datatype InviteStatus = Pending | Accepted | Rejected

  /** The unique key of both membership tables. */
  datatype At = At(place: Id, user: Id)

  datatype Seat = Seat(role: TeamRole, customRole: Option<Id>)
  datatype RolePolicy = RolePolicy(team: Id, permissions: seq<string>, isSystem: bool)
  datatype Invite = Invite(team: Id, inviter: Id, invitee: Id, role: TeamRole, status: InviteStatus)

  /** The tables, and the keys generated so far. A workspace row keeps its creator, a team row its workspace. */
  datatype State = State(
    users: map<string, Id>,
    workspaces: map<Id, Id>,
    workspaceMembers: map<At, WorkspaceRole>,
    teams: map<Id, Id>,
    members: map<At, Seat>,
    roles: map<Id, RolePolicy>,
    invites: map<Id, Invite>,
    issued: set<Id>)

  // ------------------------------------------------------------- permissions

  const TEAM_INVITE_MEMBER := "TEAM_INVITE_MEMBER"
  const TEAM_UPDATE_ROLE := "TEAM_UPDATE_ROLE"
  const TEAM_SETTINGS_UPDATE := "TEAM_SETTINGS_UPDATE"
  const PROJECT_CREATE_DELETE := "PROJECT_CREATE_DELETE"
  const PROJECT_INVITE_MEMBER := "PROJECT_INVITE_MEMBER"
  const PROJECT_UPDATE_ROLE := "PROJECT_UPDATE_ROLE"

  const ALL_PERMISSIONS: set<string> := {
    TEAM_INVITE_MEMBER, TEAM_UPDATE_ROLE, TEAM_SETTINGS_UPDATE,
    PROJECT_CREATE_DELETE, PROJECT_INVITE_MEMBER, PROJECT_UPDATE_ROLE}

  /** What the joined custom role grants; nothing without one. */
  function Granted(roles: map<Id, RolePolicy>, seat: Seat): seq<string> {
    if seat.customRole.Some? && seat.customRole.value in roles then roles[seat.customRole.value].permissions else []
  }

  /** `resolveTeamPermissions`: a custom role that grants anything replaces what the team role grants. */
  function ResolveTeamPermissions(roles: map<Id, RolePolicy>, seat: Seat): set<string> {
    var granted := Granted(roles, seat);
    if granted != [] then set p | p in granted
    else if seat.role == Owner || seat.role == Manager then ALL_PERMISSIONS
    else {}
  }

  predicate HasTeamPermission(roles: map<Id, RolePolicy>, seat: Seat, permission: string) {
    permission in ResolveTeamPermissions(roles, seat)
  }

  /** `u` sits in team `t` and holds the permission. */
  predicate Holds(s: State, t: Id, u: Id, permission: string) {
    At(t, u) in s.members && HasTeamPermission(s.roles, s.members[At(t, u)], permission)
  }

  // -------------------------------------------------------------- invariant

  /** A custom role of the team, which members may be given. */
  predicate IsCustomRole(s: State, t: Id, r: Id) {
    r in s.roles && s.roles[r].team == t && !s.roles[r].isSystem
  }

  function CustomRoles(s: State, t: Id): set<Id> {
    set r | r in s.roles && IsCustomRole(s, t, r)
  }

  /** A team member is a member of the team's workspace, holds a role of this team if any, and none as an owner. */
  ghost predicate SeatSound(s: State, k: At)
    requires k in s.members
  {
    && k.place in s.teams && At(s.teams[k.place], k.user) in s.workspaceMembers
    && (s.members[k].customRole.Some? ==>
          s.members[k].role != Owner && IsCustomRole(s, k.place, s.members[k].customRole.value))
  }

  predicate PendingFor(s: State, i: Id, t: Id, u: Id) {
    i in s.invites && s.invites[i].status == Pending && s.invites[i].team == t && s.invites[i].invitee == u
  }

  /** At most one pending invite per team and invitee, and none for a member. */
  ghost predicate InvitesSound(s: State) {
    && (forall i | i in s.invites :: s.invites[i].team in s.teams)
    && (forall i, t, u | PendingFor(s, i, t, u) :: At(t, u) !in s.members)
    && (forall i, j, t, u | PendingFor(s, i, t, u) && PendingFor(s, j, t, u) :: i == j)
  }

  predicate IsOwner(s: State, t: Id, u: Id) {
    At(t, u) in s.members && s.members[At(t, u)].role == Owner
  }

  ghost predicate HasOwner(s: State, t: Id) {
    exists u :: IsOwner(s, t, u)
  }

  ghost predicate TeamsSound(s: State) {
    && (forall t | t in s.teams :: s.teams[t] in s.workspaces && HasOwner(s, t) && |CustomRoles(s, t)| <= 5)
    && (forall r | r in s.roles :: s.roles[r].team in s.teams)
    && s.workspaces.Keys + s.teams.Keys + s.roles.Keys + s.invites.Keys <= s.issued
  }

  ghost predicate Sound(s: State) {
    (forall k | k in s.members :: SeatSound(s, k)) && InvitesSound(s) && TeamsSound(s)
  }

  // ------------------------------------------------------------------- steps

  datatype Op =
    | CreateWorkspace(actor: Id, newWorkspace: Id)
    | CreateTeam(workspace: Id, actor: Id, newTeam: Id)
    | CreateCustomRole(team: Id, actor: Id, permissions: seq<string>, newRole: Id)
    | UpdateCustomRole(team: Id, role: Id, actor: Id, newPermissions: Option<seq<string>>)
    | DeleteCustomRole(team: Id, role: Id, actor: Id)
    | AssignCustomRole(team: Id, actor: Id, target: Id, given: Option<Id>)
    | InviteMember(team: Id, actor: Id, email: string, offered: TeamRole, newInvite: Id)
    | UpdateMemberRole(team: Id, actor: Id, target: Id, to: TeamRole)
    | RemoveMember(team: Id, actor: Id, target: Id)
    | AcceptInvite(invite: Id, actor: Id)
    | RejectInvite(invite: Id, actor: Id)
    | DeleteTeam(team: Id)

  /** A member of the workspace must run it; who is not one must have created it. */
  predicate MayCreateTeam(s: State, ws: Id, u: Id) {
    && ws in s.workspaces
    && if At(ws, u) in s.workspaceMembers
       then s.workspaceMembers[At(ws, u)] in {WorkspaceOwner, WorkspaceAdmin}
       else s.workspaces[ws] == u
  }

  predicate AlreadyInvited(s: State, t: Id, u: Id) {
    exists i | i in s.invites :: PendingFor(s, i, t, u)
  }

  predicate AddressedTo(s: State, i: Id, u: Id) {
    i in s.invites && s.invites[i].invitee == u && s.invites[i].status == Pending
  }

  /** The exception a call throws, in the order in which the service checks. */
  function Refusal(s: State, op: Op): Option<Error> {
    match op
    case CreateWorkspace(_, _) => None
    case CreateTeam(ws, u, _) => if MayCreateTeam(s, ws, u) then None else Some(Forbidden)
    case CreateCustomRole(t, u, _, _) =>
      if !Holds(s, t, u, TEAM_UPDATE_ROLE) then Some(Forbidden)
      else if |CustomRoles(s, t)| >= 5 then Some(Conflict)
      else None
    case UpdateCustomRole(t, r, u, _) => RoleRefusal(s, t, r, u)
    case DeleteCustomRole(t, r, u) => RoleRefusal(s, t, r, u)
    case AssignCustomRole(t, u, v, r) =>
      if !Holds(s, t, u, TEAM_UPDATE_ROLE) || u == v then Some(Forbidden)
      else if At(t, v) !in s.members then Some(NotFound)
      else if IsOwner(s, t, v) then Some(Forbidden)
      else if r.Some? && !IsCustomRole(s, t, r.value) then Some(NotFound)
      else None
    case InviteMember(t, u, email, _, _) =>
      if !Holds(s, t, u, TEAM_INVITE_MEMBER) then Some(Forbidden)
      else if email !in s.users || email == "" then Some(NotFound)
      else if s.users[email] == u || At(t, s.users[email]) in s.members || AlreadyInvited(s, t, s.users[email])
      then Some(Conflict)
      else None
    case UpdateMemberRole(t, u, v, role) =>
      if u == v || !Holds(s, t, u, TEAM_UPDATE_ROLE) then Some(Forbidden)
      else if At(t, v) !in s.members then Some(NotFound)
      else if IsOwner(s, t, v) || role == Owner then Some(Forbidden)
      else if s.members[At(t, u)].role == Manager && (s.members[At(t, v)].role == Manager || role == Manager)
      then Some(Forbidden)
      else None
    case RemoveMember(t, u, v) =>
      if u == v || !Holds(s, t, u, TEAM_INVITE_MEMBER) then Some(Forbidden)
      else if At(t, v) !in s.members then Some(NotFound)
      else if IsOwner(s, t, v) then Some(Forbidden)
      else if s.members[At(t, u)].role == Manager && s.members[At(t, v)].role == Manager then Some(Forbidden)
      else None
    case AcceptInvite(i, u) => if AddressedTo(s, i, u) then None else Some(NotFound)
    case RejectInvite(i, u) => if AddressedTo(s, i, u) then None else Some(NotFound)
    case DeleteTeam(t) => if t in s.teams then None else Some(NotFound)
  }

  function RoleRefusal(s: State, t: Id, r: Id, u: Id): Option<Error> {
    if !Holds(s, t, u, TEAM_UPDATE_ROLE) then Some(Forbidden)
    else if !IsCustomRole(s, t, r) then Some(NotFound)
    else None
  }

  function AfterCreateTeam(s: State, ws: Id, u: Id, t: Id): State {
    s.(workspaceMembers := if At(ws, u) in s.workspaceMembers then s.workspaceMembers
                           else s.workspaceMembers[At(ws, u) := WorkspaceOwner],
       teams := s.teams[t := ws],
       members := s.members[At(t, u) := Seat(Owner, None)],
       issued := s.issued + {t})
  }

  /** Members who held the role keep their seat without it. */
  function WithoutRole(members: map<At, Seat>, t: Id, r: Id): map<At, Seat> {
    map k | k in members ::
      if k.place == t && members[k].customRole == Some(r) then members[k].(customRole := None) else members[k]
  }

  /** `v` still sits in some team of the workspace. */
  predicate SitsIn(teams: map<Id, Id>, members: map<At, Seat>, ws: Id, v: Id) {
    exists t | t in teams :: teams[t] == ws && At(t, v) in members
  }

  /** The last seat in a workspace takes the workspace membership along, unless it is an owner's. */
  function AfterRemove(s: State, t: Id, v: Id): State {
    var members := s.members - {At(t, v)};
    var kept := t !in s.teams || SitsIn(s.teams, members, s.teams[t], v)
                || At(s.teams[t], v) !in s.workspaceMembers || s.workspaceMembers[At(s.teams[t], v)] == WorkspaceOwner;
    s.(members := members,
       workspaceMembers := if kept then s.workspaceMembers else s.workspaceMembers - {At(s.teams[t], v)})
  }

  function AfterAccept(s: State, i: Id): State
    requires i in s.invites
  {
    var invite := s.invites[i];
    var seat := At(invite.team, invite.invitee);
    var joined := s.(invites := s.invites[i := invite.(status := Accepted)],
                     members := s.members[seat := Seat(invite.role, None)]);
    if invite.team !in s.teams || At(s.teams[invite.team], invite.invitee) in s.workspaceMembers then joined
    else
      joined.(workspaceMembers :=
                s.workspaceMembers[At(s.teams[invite.team], invite.invitee) :=
                                     if invite.role == Guest then WorkspaceGuest else WorkspaceMember])
  }

  /** The foreign keys take the seats, roles and invites of a team along. */
  function AfterDeleteTeam(s: State, t: Id): State {
    s.(teams := s.teams - {t},
       members := map k | k in s.members && k.place != t :: s.members[k],
       roles := map r | r in s.roles && s.roles[r].team != t :: s.roles[r],
       invites := map i | i in s.invites && s.invites[i].team != t :: s.invites[i])
  }

  /** What a call that is not refused writes. */
  function Effect(s: State, op: Op): State
    requires Refusal(s, op).None?
  {
    match op
    case CreateWorkspace(u, ws) =>
      s.(workspaces := s.workspaces[ws := u],
         workspaceMembers := s.workspaceMembers[At(ws, u) := WorkspaceOwner],
         issued := s.issued + {ws})
    case CreateTeam(ws, u, t) => AfterCreateTeam(s, ws, u, t)
    case CreateCustomRole(t, _, permissions, r) =>
      s.(roles := s.roles[r := RolePolicy(t, permissions, false)], issued := s.issued + {r})
    case UpdateCustomRole(_, r, _, permissions) =>
      if permissions.None? then s
      else s.(roles := s.roles[r := s.roles[r].(permissions := permissions.value)])
    case DeleteCustomRole(t, r, _) => s.(members := WithoutRole(s.members, t, r), roles := s.roles - {r})
    case AssignCustomRole(t, _, v, r) =>
      s.(members := s.members[At(t, v) := s.members[At(t, v)].(customRole := r)])
    case InviteMember(t, u, email, role, i) =>
      s.(invites := s.invites[i := Invite(t, u, s.users[email], role, Pending)], issued := s.issued + {i})
    case UpdateMemberRole(t, _, v, role) => s.(members := s.members[At(t, v) := Seat(role, None)])
    case RemoveMember(t, _, v) => AfterRemove(s, t, v)
    case AcceptInvite(i, _) => AfterAccept(s, i)
    case RejectInvite(i, _) => s.(invites := s.invites[i := s.invites[i].(status := Rejected)])
    case DeleteTeam(t) => AfterDeleteTeam(s, t)
  }

  /** A refused call writes nothing. */
  function Next(s: State, op: Op): State {
    if Refusal(s, op).Some? then s else Effect(s, op)
  }

  /** Generated keys are new. */
  predicate NewKey(s: State, op: Op) {
    match op
    case CreateWorkspace(_, k) => k !in s.issued
    case CreateTeam(_, _, k) => k !in s.issued
    case CreateCustomRole(_, _, _, k) => k !in s.issued
    case InviteMember(_, _, _, _, k) => k !in s.issued
    case _ => true
  }

  // ------------------------------------------------ every step keeps the invariant

  lemma OwnersKept(s: State, w: State, t: Id)
    requires HasOwner(s, t) && forall u | IsOwner(s, t, u) :: IsOwner(w, t, u)
    ensures HasOwner(w, t)
  {
    var u :| IsOwner(s, t, u);
    assert IsOwner(w, t, u);
  }

  lemma CreateTeamKeepsSound(s: State, ws: Id, u: Id, t: Id)
    requires Sound(s) && MayCreateTeam(s, ws, u) && t !in s.issued
    ensures Sound(AfterCreateTeam(s, ws, u, t))
  {
    hide SeatSound, InvitesSound, AfterCreateTeam, MayCreateTeam;
    CreatedTeamIsSound(s, ws, u, t);
    forall k | k in AfterCreateTeam(s, ws, u, t).members ensures SeatSound(AfterCreateTeam(s, ws, u, t), k) {
      CreatedSeatsAreSound(s, ws, u, t, k);
    }
  }

  lemma CreatedTeamIsSound(s: State, ws: Id, u: Id, t: Id)
    requires TeamsSound(s) && InvitesSound(s) && MayCreateTeam(s, ws, u) && t !in s.issued
    ensures TeamsSound(AfterCreateTeam(s, ws, u, t)) && InvitesSound(AfterCreateTeam(s, ws, u, t))
  {
    hide HasOwner, CustomRoles, InvitesSound;
    var w := AfterCreateTeam(s, ws, u, t);
    OneTeamMore(s, w, t, u);
    NewTeamHasNoInvites(s, w, t, u);
  }

  lemma OneTeamMore(s: State, w: State, t: Id, u: Id)
    requires TeamsSound(s) && t !in s.issued && w.roles == s.roles && w.invites == s.invites
    requires w.teams.Keys == s.teams.Keys + {t} && w.workspaces == s.workspaces && w.issued == s.issued + {t}
    requires w.teams[t] in s.workspaces && forall x | x in s.teams :: w.teams[x] == s.teams[x]
    requires w.members == s.members[At(t, u) := Seat(Owner, None)]
    ensures TeamsSound(w)
  {
    assert IsOwner(w, t, u);
    forall x | x in w.teams ensures HasOwner(w, x) && |CustomRoles(w, x)| <= 5 {
      SameRoles(s, w, x);
      if x == t { assert CustomRoles(s, x) == {}; } else { OwnersKept(s, w, x); }
    }
  }

  lemma NewTeamHasNoInvites(s: State, w: State, t: Id, u: Id)
    requires InvitesSound(s) && t !in s.teams && w.invites == s.invites && s.teams.Keys <= w.teams.Keys
    requires w.members.Keys == s.members.Keys + {At(t, u)}
    ensures InvitesSound(w)
  {
    forall i, x, v | PendingFor(w, i, x, v) ensures At(x, v) !in w.members { assert PendingFor(s, i, x, v); }
    PendingKept(s, w);
  }

  lemma CreatedSeatsAreSound(s: State, ws: Id, u: Id, t: Id, k: At)
    requires t !in s.teams && k in AfterCreateTeam(s, ws, u, t).members
    requires k in s.members ==> SeatSound(s, k)
    ensures SeatSound(AfterCreateTeam(s, ws, u, t), k)
  {
  }

  /** If nothing becomes pending, pending invites stay unique. */
  lemma PendingKept(s: State, w: State)
    requires InvitesSound(s) && forall i, t, u | PendingFor(w, i, t, u) :: PendingFor(s, i, t, u)
    ensures forall i, j, t, u | PendingFor(w, i, t, u) && PendingFor(w, j, t, u) :: i == j
  {
  }

  /** A step on seats alone: no seat becomes someone's who was not there, owners stay, roles come from the team. */
  lemma SeatStepKeepsSound(s: State, w: State)
    requires Sound(s) && w == s.(members := w.members)
    requires w.members.Keys == s.members.Keys
    requires forall k | k in s.members :: s.members[k].role == Owner ==> w.members[k] == s.members[k]
    requires forall k | k in w.members :: w.members[k].customRole.Some? ==>
                 w.members[k].role != Owner && IsCustomRole(s, k.place, w.members[k].customRole.value)
    ensures Sound(w)
  {
    forall t | t in w.teams ensures HasOwner(w, t) && |CustomRoles(w, t)| <= 5 {
      assert CustomRoles(w, t) == CustomRoles(s, t);
      OwnersKept(s, w, t);
    }
    forall k | k in w.members ensures SeatSound(w, k) { assert SeatSound(s, k); }
    forall i, t, u | PendingFor(w, i, t, u) ensures At(t, u) !in w.members { assert PendingFor(s, i, t, u); }
    PendingKept(s, w);
  }

  /** A step on roles alone that keeps every role and at most five of each team. */
  lemma RoleStepKeepsSound(s: State, w: State)
    requires Sound(s) && w == s.(roles := w.roles, issued := w.issued)
    requires s.roles.Keys <= w.roles.Keys <= w.issued && s.issued <= w.issued
    requires forall r | r in s.roles :: w.roles[r].team == s.roles[r].team && w.roles[r].isSystem == s.roles[r].isSystem
    requires forall r | r in w.roles :: w.roles[r].team in s.teams
    requires forall t | t in s.teams :: |CustomRoles(w, t)| <= 5
    ensures Sound(w)
  {
    forall t | t in w.teams ensures HasOwner(w, t) { OwnersKept(s, w, t); }
    forall k | k in w.members ensures SeatSound(w, k) { assert SeatSound(s, k); }
    forall i, t, u | PendingFor(w, i, t, u) ensures At(t, u) !in w.members { assert PendingFor(s, i, t, u); }
    PendingKept(s, w);
  }

  /** Dropping a role that nobody holds. */
  lemma DropRoleKeepsSound(s: State, r: Id)
    requires Sound(s) && r in s.roles
    requires forall k | k in s.members :: s.members[k].customRole != Some(r)
    ensures Sound(s.(roles := s.roles - {r}))
  {
    var w := s.(roles := s.roles - {r});
    forall t | t in w.teams ensures HasOwner(w, t) && |CustomRoles(w, t)| <= 5 {
      SubsetSize(CustomRoles(w, t), CustomRoles(s, t));
      OwnersKept(s, w, t);
    }
    forall k | k in w.members ensures SeatSound(w, k) { assert SeatSound(s, k); }
    forall i, t, u | PendingFor(w, i, t, u) ensures At(t, u) !in w.members { assert PendingFor(s, i, t, u); }
    PendingKept(s, w);
  }

  lemma DeleteRoleKeepsSound(s: State, t: Id, r: Id)
    requires Sound(s) && IsCustomRole(s, t, r)
    ensures Sound(s.(members := WithoutRole(s.members, t, r), roles := s.roles - {r}))
  {
    var m := s.(members := WithoutRole(s.members, t, r));
    forall k | k in s.members
      ensures s.members[k].role == Owner ==> m.members[k] == s.members[k]
      ensures m.members[k].customRole != Some(r)
      ensures m.members[k].customRole.Some? ==>
                m.members[k].role != Owner && IsCustomRole(s, k.place, m.members[k].customRole.value)
    {
      assert SeatSound(s, k);
    }
    SeatStepKeepsSound(s, m);
    DropRoleKeepsSound(m, r);
  }

  lemma CreateRoleKeepsSound(s: State, t: Id, permissions: seq<string>, r: Id)
    requires Sound(s) && t in s.teams && |CustomRoles(s, t)| < 5 && r !in s.issued
    ensures Sound(s.(roles := s.roles[r := RolePolicy(t, permissions, false)], issued := s.issued + {r}))
  {
    hide SeatSound, InvitesSound;
    var w := s.(roles := s.roles[r := RolePolicy(t, permissions, false)], issued := s.issued + {r});
    forall x | x in s.teams ensures |CustomRoles(w, x)| <= 5 { OneRoleMore(s, w, r, x); }
    RoleStepKeepsSound(s, w);
  }

  lemma OneRoleMore(s: State, w: State, r: Id, x: Id)
    requires r !in s.roles && w.roles.Keys == s.roles.Keys + {r}
    requires forall q | q in s.roles :: w.roles[q] == s.roles[q]
    ensures |CustomRoles(w, x)| <= |CustomRoles(s, x)| + if w.roles[r].team == x then 1 else 0
  {
    var before, after := CustomRoles(s, x), CustomRoles(w, x);
    forall q | q in after ensures q in before || (q == r && w.roles[r].team == x) { assert IsCustomRole(w, x, q); }
    if w.roles[r].team == x {
      SubsetSize(after, before + {r});
    } else {
      SubsetSize(after, before);
    }
  }

  lemma UpdateRoleKeepsSound(s: State, r: Id, permissions: seq<string>)
    requires Sound(s) && r in s.roles
    ensures Sound(s.(roles := s.roles[r := s.roles[r].(permissions := permissions)]))
  {
    hide SeatSound, InvitesSound;
    var w := s.(roles := s.roles[r := s.roles[r].(permissions := permissions)]);
    forall x | x in s.teams ensures |CustomRoles(w, x)| <= 5 { SameRoles(s, w, x); }
    RoleStepKeepsSound(s, w);
  }

  lemma SameRoles(s: State, w: State, x: Id)
    requires forall q :: IsCustomRole(s, x, q) <==> IsCustomRole(w, x, q)
    ensures CustomRoles(w, x) == CustomRoles(s, x)
  {
  }

  /** A step on invites and membership that gives `seats` more or fewer non-owner seats. */
  lemma MembershipStepKeepsSound(s: State, w: State)
    requires Sound(s)
    requires w == s.(members := w.members, workspaceMembers := w.workspaceMembers,
                     invites := w.invites, issued := w.issued)
    requires forall k | k in w.members :: SeatSound(w, k)
    requires InvitesSound(w) && w.invites.Keys <= w.issued && s.issued <= w.issued
    requires forall t, u | IsOwner(s, t, u) :: IsOwner(w, t, u)
    ensures Sound(w)
  {
    hide SeatSound, InvitesSound;
    forall t | t in w.teams ensures HasOwner(w, t) && |CustomRoles(w, t)| <= 5 {
      assert CustomRoles(w, t) == CustomRoles(s, t);
      OwnersKept(s, w, t);
    }
  }

  /** Seats stay sound while seats, memberships, teams and roles stay. */
  lemma SameSeatsAreSound(s: State, w: State)
    requires forall k | k in s.members :: SeatSound(s, k)
    requires w.members == s.members && w.workspaceMembers == s.workspaceMembers
    requires w.teams == s.teams && w.roles == s.roles
    ensures forall k | k in w.members :: SeatSound(w, k)
  {
    forall k | k in w.members ensures SeatSound(w, k) { assert SeatSound(s, k); }
  }

  lemma OneInviteMore(s: State, w: State, i: Id, invite: Invite)
    requires InvitesSound(s) && i !in s.invites && w.invites == s.invites[i := invite]
    requires w.members == s.members && w.teams == s.teams && invite.team in s.teams
    requires At(invite.team, invite.invitee) !in s.members && !AlreadyInvited(s, invite.team, invite.invitee)
    ensures InvitesSound(w)
  {
    forall j, t, u | PendingFor(w, j, t, u)
      ensures j == i || PendingFor(s, j, t, u)
      ensures At(t, u) !in w.members
      ensures PendingFor(w, i, t, u) ==> i == j
    {
      if j != i { assert PendingFor(s, j, t, u); }
    }
  }

  lemma InviteKeepsSound(s: State, i: Id, invite: Invite)
    requires Sound(s) && i !in s.issued && invite.team in s.teams && invite.status == Pending
    requires At(invite.team, invite.invitee) !in s.members && !AlreadyInvited(s, invite.team, invite.invitee)
    ensures Sound(s.(invites := s.invites[i := invite], issued := s.issued + {i}))
  {
    hide SeatSound, InvitesSound, AlreadyInvited;
    var w := s.(invites := s.invites[i := invite], issued := s.issued + {i});
    SameSeatsAreSound(s, w);
    OneInviteMore(s, w, i, invite);
    MembershipStepKeepsSound(s, w);
  }

  lemma RejectKeepsSound(s: State, i: Id)
    requires Sound(s) && i in s.invites
    ensures Sound(s.(invites := s.invites[i := s.invites[i].(status := Rejected)]))
  {
    var w := s.(invites := s.invites[i := s.invites[i].(status := Rejected)]);
    forall k | k in w.members ensures SeatSound(w, k) { assert SeatSound(s, k); }
    forall j, t, u | PendingFor(w, j, t, u) ensures PendingFor(s, j, t, u) && At(t, u) !in w.members {
      assert PendingFor(s, j, t, u);
    }
    PendingKept(s, w);
    MembershipStepKeepsSound(s, w);
  }

  /** Accepting takes a free seat: the invite was pending, so its invitee was not a member. */
  lemma AcceptTakesAFreeSeat(s: State, i: Id, u: Id)
    requires Sound(s) && AddressedTo(s, i, u)
    ensures s.invites[i].team in s.teams && At(s.invites[i].team, u) !in s.members
    ensures At(s.invites[i].team, u) in AfterAccept(s, i).members
    ensures !AlreadyInvited(AfterAccept(s, i), s.invites[i].team, u)
  {
    var t, w := s.invites[i].team, AfterAccept(s, i);
    assert PendingFor(s, i, t, u);
    forall j | j in w.invites ensures !PendingFor(w, j, t, u) {
      if PendingFor(w, j, t, u) { assert PendingFor(s, j, t, u); }
    }
  }

  lemma AcceptedSeatsAreSound(s: State, i: Id, k: At)
    requires i in s.invites && s.invites[i].team in s.teams && k in AfterAccept(s, i).members
    requires k in s.members ==> SeatSound(s, k)
    ensures SeatSound(AfterAccept(s, i), k)
  {
  }

  lemma AcceptKeepsSound(s: State, i: Id, u: Id)
    requires Sound(s) && AddressedTo(s, i, u)
    ensures Sound(AfterAccept(s, i))
  {
    AcceptTakesAFreeSeat(s, i, u);
    forall k | k in AfterAccept(s, i).members ensures SeatSound(AfterAccept(s, i), k) {
      AcceptedSeatsAreSound(s, i, k);
    }
    SoundSeatsSuffice(s, AfterAccept(s, i), i);
  }

  lemma SoundSeatsSuffice(s: State, w: State, i: Id)
    requires InvitesSound(s) && TeamsSound(s) && i in s.invites && s.invites[i].status == Pending
    requires var seat := At(s.invites[i].team, s.invites[i].invitee);
             && seat !in s.members
             && w == s.(members := s.members[seat := Seat(s.invites[i].role, None)],
                        workspaceMembers := w.workspaceMembers,
                        invites := s.invites[i := s.invites[i].(status := Accepted)])
    requires forall k | k in w.members :: SeatSound(w, k)
    ensures Sound(w)
  {
    hide SeatSound;
    AcceptedInvitesAreSound(s, w, i);
    MoreSeatsKeepTeamsSound(s, w);
  }

  lemma MoreSeatsKeepTeamsSound(s: State, w: State)
    requires TeamsSound(s) && w.invites.Keys == s.invites.Keys
    requires w == s.(members := w.members, workspaceMembers := w.workspaceMembers, invites := w.invites)
    requires forall k | k in s.members :: k in w.members && w.members[k] == s.members[k]
    ensures TeamsSound(w)
  {
    forall x | x in w.teams ensures HasOwner(w, x) && |CustomRoles(w, x)| <= 5 {
      SameRoles(s, w, x);
      OwnersKept(s, w, x);
    }
  }

  lemma AcceptedInvitesAreSound(s: State, w: State, i: Id)
    requires InvitesSound(s) && i in s.invites && s.invites[i].status == Pending
    requires w.teams == s.teams && w.invites == s.invites[i := s.invites[i].(status := Accepted)]
    requires w.members.Keys == s.members.Keys + {At(s.invites[i].team, s.invites[i].invitee)}
    ensures InvitesSound(w)
  {
    forall j, x, v | PendingFor(w, j, x, v) ensures PendingFor(s, j, x, v) && At(x, v) !in w.members {
      assert PendingFor(s, j, x, v);
      if At(x, v) !in s.members && At(x, v) in w.members { assert PendingFor(s, i, x, v); }
    }
    PendingKept(s, w);
  }

  lemma RemovedSeatsAreSound(s: State, t: Id, v: Id, k: At)
    requires k in s.members && SeatSound(s, k) && k != At(t, v)
    ensures SeatSound(AfterRemove(s, t, v), k)
  {
  }

  lemma RemoveKeepsSound(s: State, t: Id, v: Id)
    requires Sound(s) && At(t, v) in s.members && !IsOwner(s, t, v)
    ensures Sound(AfterRemove(s, t, v))
  {
    hide SeatSound, SitsIn;
    var w := AfterRemove(s, t, v);
    forall k | k in w.members ensures SeatSound(w, k) { RemovedSeatsAreSound(s, t, v, k); }
    assert InvitesSound(w) by {
      hide TeamsSound;
      FewerInvitesAreSound(s, w);
    }
    MembershipStepKeepsSound(s, w);
  }

  lemma DeleteTeamKeepsSound(s: State, t: Id)
    requires Sound(s)
    ensures Sound(AfterDeleteTeam(s, t))
  {
    hide SeatSound, TeamsSound;
    var w := AfterDeleteTeam(s, t);
    OtherTeamsStaySound(s, w, t);
    forall k | k in w.members ensures SeatSound(w, k) { OtherSeatsStaySound(s, t, k); }
    FewerInvitesAreSound(s, w);
  }

  lemma OtherSeatsStaySound(s: State, t: Id, k: At)
    requires k in s.members && SeatSound(s, k) && k.place != t
    ensures SeatSound(AfterDeleteTeam(s, t), k)
  {
  }

  lemma OtherTeamsStaySound(s: State, w: State, t: Id)
    requires TeamsSound(s) && w == AfterDeleteTeam(s, t)
    ensures TeamsSound(w)
  {
    forall x | x in w.teams ensures HasOwner(w, x) && |CustomRoles(w, x)| <= 5 {
      OtherTeamStaysSound(s, w, t, x);
    }
  }

  lemma OtherTeamStaysSound(s: State, w: State, t: Id, x: Id)
    requires w == AfterDeleteTeam(s, t) && x != t && HasOwner(s, x) && |CustomRoles(s, x)| <= 5
    ensures HasOwner(w, x) && |CustomRoles(w, x)| <= 5
  {
    SubsetSize(CustomRoles(w, x), CustomRoles(s, x));
    OwnersKept(s, w, x);
  }

  lemma FewerInvitesAreSound(s: State, w: State)
    requires InvitesSound(s) && w.members.Keys <= s.members.Keys
    requires forall i | i in w.invites :: i in s.invites && w.invites[i] == s.invites[i] && w.invites[i].team in w.teams
    ensures InvitesSound(w)
  {
    forall i, x, u | PendingFor(w, i, x, u) ensures PendingFor(s, i, x, u) && At(x, u) !in w.members {
      assert PendingFor(s, i, x, u);
    }
    PendingKept(s, w);
  }

  lemma CreateWorkspaceKeepsSound(s: State, u: Id, ws: Id)
    requires Sound(s) && ws !in s.issued
    ensures Sound(Next(s, CreateWorkspace(u, ws)))
  {
    var w := Next(s, CreateWorkspace(u, ws));
    forall x | x in w.teams ensures HasOwner(w, x) && |CustomRoles(w, x)| <= 5 {
      assert CustomRoles(w, x) == CustomRoles(s, x);
      OwnersKept(s, w, x);
    }
    forall k | k in w.members ensures SeatSound(w, k) { assert SeatSound(s, k); }
    forall i, x, v | PendingFor(w, i, x, v) ensures At(x, v) !in w.members { assert PendingFor(s, i, x, v); }
    PendingKept(s, w);
  }

  /** Who may change a seat sits in the team. */
  lemma HoldersTeamExists(s: State, t: Id, u: Id)
    requires Sound(s) && At(t, u) in s.members
    ensures t in s.teams
  {
    assert SeatSound(s, At(t, u));
  }

  lemma SeatChangeKeepsSound(s: State, t: Id, v: Id, seat: Seat)
    requires Sound(s) && At(t, v) in s.members && !IsOwner(s, t, v) && seat.role != Owner
    requires seat.customRole.Some? ==> IsCustomRole(s, t, seat.customRole.value)
    ensures Sound(s.(members := s.members[At(t, v) := seat]))
  {
    var w := s.(members := s.members[At(t, v) := seat]);
    forall k | k in w.members
      ensures w.members[k].customRole.Some? ==>
                w.members[k].role != Owner && IsCustomRole(s, k.place, w.members[k].customRole.value)
    {
      assert SeatSound(s, k);
    }
    SeatStepKeepsSound(s, w);
  }

  lemma NextKeepsSound(s: State, op: Op)
    requires Sound(s) && NewKey(s, op)
    ensures Sound(Next(s, op))
  {
    hide Sound;
    if Refusal(s, op).None? {
      match op
      case CreateWorkspace(u, ws) => CreateWorkspaceKeepsSound(s, u, ws);
      case CreateTeam(ws, u, t) => CreateTeamKeepsSound(s, ws, u, t);
      case CreateCustomRole(t, u, permissions, r) =>
        HoldersTeamExists(s, t, u);
        CreateRoleKeepsSound(s, t, permissions, r);
      case UpdateCustomRole(_, r, _, permissions) =>
        if permissions.Some? { UpdateRoleKeepsSound(s, r, permissions.value); }
      case DeleteCustomRole(t, r, _) => DeleteRoleKeepsSound(s, t, r);
      case AssignCustomRole(t, _, v, r) => SeatChangeKeepsSound(s, t, v, s.members[At(t, v)].(customRole := r));
      case InviteMember(t, u, email, role, i) =>
        HoldersTeamExists(s, t, u);
        InviteKeepsSound(s, i, Invite(t, u, s.users[email], role, Pending));
      case UpdateMemberRole(t, _, v, role) => SeatChangeKeepsSound(s, t, v, Seat(role, None));
      case RemoveMember(t, _, v) => RemoveKeepsSound(s, t, v);
      case AcceptInvite(i, u) => AcceptKeepsSound(s, i, u);
      case RejectInvite(i, _) => RejectKeepsSound(s, i);
      case DeleteTeam(t) => DeleteTeamKeepsSound(s, t);
    }
  }

  // ---------------------------------------------------------------------- runs

  function Run(s: State, ops: seq<Op>): State
    decreases |ops|
  {
    if ops == [] then s else Run(Next(s, ops[0]), ops[1..])
  }

  ghost predicate NewKeys(s: State, ops: seq<Op>)
    decreases |ops|
  {
    ops == [] || (NewKey(s, ops[0]) && NewKeys(Next(s, ops[0]), ops[1..]))
  }

  lemma {:induction false} RunKeepsSound(s: State, ops: seq<Op>)
    requires Sound(s) && NewKeys(s, ops)
    ensures Sound(Run(s, ops))
    decreases |ops|
  {
    if ops == [] {
    } else {
      NextKeepsSound(s, ops[0]);
      RunKeepsSound(Next(s, ops[0]), ops[1..]);
    }
  }

  /** A system with users and nothing else. */
  function Fresh(users: map<string, Id>): State {
    State(users, map[], map[], map[], map[], map[], map[], {})
  }

  lemma RunsFromTheStartAreSound(users: map<string, Id>, ops: seq<Op>)
    requires NewKeys(Fresh(users), ops)
    ensures Sound(Run(Fresh(users), ops))
  {
    RunKeepsSound(Fresh(users), ops);
  }

  // -------------------------------------------------------------------- owners

  /** An owner holds every permission: no custom role can narrow it. */
  lemma OwnerHoldsAll(s: State, t: Id, u: Id)
    requires Sound(s) && IsOwner(s, t, u)
    ensures ResolveTeamPermissions(s.roles, s.members[At(t, u)]) == ALL_PERMISSIONS
  {
    assert SeatSound(s, At(t, u));
  }

  /** One call leaves an owner in place unless it deletes the team. */
  lemma NextKeepsOwner(s: State, op: Op, t: Id, u: Id)
    requires Sound(s) && NewKey(s, op) && IsOwner(s, t, u) && t in Next(s, op).teams
    ensures IsOwner(Next(s, op), t, u)
  {
    if Refusal(s, op).None? && op.AcceptInvite? { AcceptTakesAFreeSeat(s, op.invite, op.actor); }
    assert SeatSound(s, At(t, u));
    NextKeepsSeatOfOwner(s, op, t, u);
  }

  /** A key is generated once, so a deleted team does not come back. */
  lemma NextKeepsDeleted(s: State, op: Op, t: Id)
    requires NewKey(s, op) && t in s.issued && t !in s.teams
    ensures t in Next(s, op).issued && t !in Next(s, op).teams
  {
  }

  lemma NextKeepsSeatOfOwner(s: State, op: Op, t: Id, u: Id)
    requires IsOwner(s, t, u) && t in s.teams && NewKey(s, op) && s.teams.Keys <= s.issued
    requires op.AcceptInvite? && AddressedTo(s, op.invite, op.actor) ==>
               At(s.invites[op.invite].team, op.actor) !in s.members
    ensures t in Next(s, op).teams ==> IsOwner(Next(s, op), t, u)
  {
  }

  lemma {:induction false} DeletedTeamsStayDeleted(s: State, ops: seq<Op>, t: Id)
    requires Sound(s) && NewKeys(s, ops) && t in s.issued && t !in s.teams
    ensures t !in Run(s, ops).teams
    decreases |ops|
  {
    if ops == [] {
    } else {
      NextKeepsSound(s, ops[0]);
      NextKeepsDeleted(s, ops[0], t);
      DeletedTeamsStayDeleted(Next(s, ops[0]), ops[1..], t);
    }
  }

  lemma NextKeepsIssued(s: State, op: Op)
    ensures s.issued <= Next(s, op).issued
  {
  }

  lemma OwnersTeamIsKnown(s: State, t: Id, u: Id)
    requires Sound(s) && At(t, u) in s.members
    ensures t in s.teams && t in s.issued
  {
    assert SeatSound(s, At(t, u));
  }

  /** As long as the team exists its owners keep the role and every permission, whatever is called. */
  lemma {:induction false} OwnersStayOwners(s: State, ops: seq<Op>, t: Id, u: Id)
    requires Sound(s) && NewKeys(s, ops) && IsOwner(s, t, u)
    ensures var w := Run(s, ops);
            t in w.teams ==>
              IsOwner(w, t, u) && ResolveTeamPermissions(w.roles, w.members[At(t, u)]) == ALL_PERMISSIONS
    decreases |ops|
  {
    hide Sound, Next;
    if ops == [] {
      OwnerHoldsAll(s, t, u);
    } else {
      var n := Next(s, ops[0]);
      NextKeepsSound(s, ops[0]);
      if t in n.teams {
        NextKeepsOwner(s, ops[0], t, u);
        OwnersStayOwners(n, ops[1..], t, u);
      } else {
        OwnersTeamIsKnown(s, t, u);
        NextKeepsIssued(s, ops[0]);
        DeletedTeamsStayDeleted(n, ops[1..], t);
      }
    }
  }

  /** There are two ways to become an owner: to create the team, or to accept an invite that says so. */
  lemma OwnersAreMadeTwoWays(s: State, op: Op, t: Id, u: Id)
    requires IsOwner(Next(s, op), t, u)
    ensures || IsOwner(s, t, u)
            || (op.CreateTeam? && op.newTeam == t && op.actor == u)
            || (&& op.AcceptInvite? && op.actor == u
                && PendingFor(s, op.invite, t, u) && s.invites[op.invite].role == Owner)
  {
  }

  /** Calls that manage the team `op.team` on behalf of `op.actor`. */
  predicate Manages(op: Op) {
    || op.CreateCustomRole? || op.UpdateCustomRole? || op.DeleteCustomRole? || op.AssignCustomRole?
    || op.InviteMember? || op.UpdateMemberRole? || op.RemoveMember?
  }

  /** Members and guests without a custom role, and strangers, can change nothing of a team. */
  lemma PlainMembersManageNothing(s: State, op: Op)
    requires Manages(op)
    requires At(op.team, op.actor) in s.members ==>
               var seat := s.members[At(op.team, op.actor)];
               seat.customRole.None? && (seat.role == TeamRole.Member || seat.role == Guest)
    ensures Refusal(s, op) == Some(Forbidden) && Next(s, op) == s
  {
  }

  predicate Leads(role: TeamRole) {
    role == Owner || role == Manager
  }

  /** The seats of owners and managers, with their roles. */
  function Leaders(members: map<At, Seat>): map<At, TeamRole> {
    map k | k in members && Leads(members[k].role) :: members[k].role
  }

  /** A call that changes a role or removes a member, and passes every check but the one on managers. */
  predicate MayRank(s: State, op: Op) {
    && (op.UpdateMemberRole? || op.RemoveMember?)
    && op.actor != op.target
    && Holds(s, op.team, op.actor, if op.UpdateMemberRole? then TEAM_UPDATE_ROLE else TEAM_INVITE_MEMBER)
    && At(op.team, op.target) in s.members && !IsOwner(s, op.team, op.target)
    && (op.UpdateMemberRole? ==> op.to != Owner)
  }

  /** The call would take a manager's role, or give it. */
  predicate RanksManager(s: State, op: Op) {
    && MayRank(s, op)
    && (s.members[At(op.team, op.target)].role == Manager) != (op.UpdateMemberRole? && op.to == Manager)
  }

  /** The invitee accepts to become a manager or an owner. */
  predicate AcceptsToLead(s: State, op: Op) {
    op.AcceptInvite? && AddressedTo(s, op.invite, op.actor) && Leads(s.invites[op.invite].role)
  }

  /**
   Once a team stands, its owners and managers change exactly when a permitted
   call of someone who is no manager makes or unmakes a manager, or when an invite
   to lead is accepted.
   */
  lemma LeadersChangeExactly(s: State, op: Op)
    requires Sound(s) && !op.CreateTeam? && !op.DeleteTeam?
    ensures Leaders(Next(s, op).members) != Leaders(s.members) <==>
              || (RanksManager(s, op) && s.members[At(op.team, op.actor)].role != Manager)
              || AcceptsToLead(s, op)
  {
    match op
    case UpdateMemberRole(t, u, v, to) => RankingChangesLeaders(s, op);
    case RemoveMember(t, u, v) => RankingChangesLeaders(s, op);
    case AcceptInvite(i, u) => AcceptanceChangesLeaders(s, i, u);
    case _ => OthersKeepLeaders(s, op);
  }

  lemma RankingChangesLeaders(s: State, op: Op)
    requires op.UpdateMemberRole? || op.RemoveMember?
    ensures Leaders(Next(s, op).members) != Leaders(s.members) <==>
              RanksManager(s, op) && s.members[At(op.team, op.actor)].role != Manager
  {
    var w, k := Next(s, op), At(op.team, op.target);
    if Refusal(s, op).None? {
      assert k in s.members && MayRank(s, op);
      assert forall x | x in s.members && x != k :: x in w.members && w.members[x] == s.members[x];
      if RanksManager(s, op) {
        assert k in Leaders(s.members) <==> k !in Leaders(w.members);
      } else {
        assert Leaders(w.members) == Leaders(s.members);
      }
    }
  }

  lemma AcceptanceChangesLeaders(s: State, i: Id, u: Id)
    requires Sound(s)
    ensures Leaders(Next(s, AcceptInvite(i, u)).members) != Leaders(s.members) <==> AcceptsToLead(s, AcceptInvite(i, u))
  {
    if AddressedTo(s, i, u) {
      AcceptTakesAFreeSeat(s, i, u);
      AcceptedSeats(s, i, u);
      SeatChangesLeaders(s.members, At(s.invites[i].team, u), Seat(s.invites[i].role, None));
    }
  }

  lemma SeatChangesLeaders(members: map<At, Seat>, k: At, seat: Seat)
    requires k !in members
    ensures Leaders(members[k := seat]) != Leaders(members) <==> Leads(seat.role)
  {
    if Leads(seat.role) {
      assert k in Leaders(members[k := seat]) && k !in Leaders(members);
    } else {
      assert Leaders(members[k := seat]) == Leaders(members);
    }
  }

  lemma OthersKeepLeaders(s: State, op: Op)
    requires !op.CreateTeam? && !op.DeleteTeam? && !op.UpdateMemberRole? && !op.RemoveMember? && !op.AcceptInvite?
    ensures Leaders(Next(s, op).members) == Leaders(s.members)
  {
    if op.DeleteCustomRole? {
      DroppedRoleKeepsLeaders(s.members, op.team, op.role);
    } else if op.AssignCustomRole? {
      assert Leaders(Next(s, op).members) == Leaders(s.members);
    }
  }

  lemma DroppedRoleKeepsLeaders(members: map<At, Seat>, t: Id, r: Id)
    ensures Leaders(WithoutRole(members, t, r)) == Leaders(members)
  {
  }

  /** Who makes the call is an owner of the team; for an accepted invite, who sent it. */
  predicate OwnerCalls(s: State, op: Op) {
    match op
    case UpdateMemberRole(t, u, _, _) => IsOwner(s, t, u)
    case RemoveMember(t, u, _) => IsOwner(s, t, u)
    case AcceptInvite(i, _) => i in s.invites && IsOwner(s, s.invites[i].team, s.invites[i].inviter)
    case _ => false
  }

  /** What the exceptions say: only an owner makes or unmakes a manager. No one else makes an owner either. */
  ghost predicate OnlyOwnersRank(s: State, op: Op) {
    Leaders(Next(s, op).members) != Leaders(s.members) ==> OwnerCalls(s, op)
  }

  /**
   The code keeps that rule but in two cases: a member or guest who holds the
   permission by a custom role makes or unmakes a manager, and an invite to lead
   is accepted whose sender is no owner.
   */
  lemma OnlyOwnersRankExactly(s: State, op: Op)
    requires Sound(s) && !op.CreateTeam? && !op.DeleteTeam?
    ensures OnlyOwnersRank(s, op) <==>
              && !(RanksManager(s, op) && s.members[At(op.team, op.actor)].role in {TeamRole.Member, Guest})
              && !(AcceptsToLead(s, op) && !IsOwner(s, s.invites[op.invite].team, s.invites[op.invite].inviter))
  {
    hide Sound, Next, Leaders;
    LeadersChangeExactly(s, op);
  }

  /**
   An offer makes its invitee a manager or an owner exactly when it offers that
   and is not refused. No check asks for the sender's own role, so every member who
   may invite can do it.
   */
  lemma OfferMakesLeaderExactly(s: State, t: Id, actor: Id, email: string, offered: TeamRole, i: Id, u: Id)
    requires Sound(s) && i !in s.issued
    ensures var offer := InviteMember(t, actor, email, offered, i);
            var x := Next(Next(s, offer), AcceptInvite(i, u));
            Leaders(x.members) != Leaders(s.members) <==>
              Refusal(s, offer).None? && Leads(offered) && u == s.users[email]
  {
    hide Sound;
    var offer := InviteMember(t, actor, email, offered, i);
    NextKeepsSound(s, offer);
    AcceptanceChangesLeaders(Next(s, offer), i, u);
    assert i !in s.invites by { InvitesAreIssued(s); }
  }

  lemma InvitesAreIssued(s: State)
    requires Sound(s)
    ensures s.invites.Keys <= s.issued
  {
  }

  /** A guest with a custom role that may change roles, beside the owner and a manager; user 13 is no member. */
  const GuestWithRole := State(
    map["new" := 13], map[1 := 10],
    map[At(1, 10) := WorkspaceOwner, At(1, 11) := WorkspaceMember, At(1, 12) := WorkspaceGuest],
    map[2 := 1],
    map[At(2, 10) := Seat(Owner, None), At(2, 11) := Seat(Manager, None), At(2, 12) := Seat(Guest, Some(3))],
    map[3 := RolePolicy(2, [TEAM_UPDATE_ROLE], false)],
    map[], {1, 2, 3})

  lemma GuestWithRoleIsSound()
    ensures Sound(GuestWithRole)
  {
    var s := GuestWithRole;
    assert IsOwner(s, 2, 10);
    assert CustomRoles(s, 2) == {3};
    forall k | k in s.members ensures SeatSound(s, k) { }
  }

  /** That guest demotes the manager. */
  lemma GuestDemotesManager()
    ensures var s, op := GuestWithRole, UpdateMemberRole(2, 12, 11, Guest);
            && Sound(s) && !OnlyOwnersRank(s, op)
            && Next(s, op).members == s.members[At(2, 11) := Seat(Guest, None)]
  {
    var s, op := GuestWithRole, UpdateMemberRole(2, 12, 11, Guest);
    GuestWithRoleIsSound();
    assert TEAM_UPDATE_ROLE in [TEAM_UPDATE_ROLE];
    assert Holds(s, 2, 12, TEAM_UPDATE_ROLE);
    OnlyOwnersRankExactly(s, op);
  }

  /** The manager makes a stranger a manager, or an owner, which no manager may do to a member. */
  lemma ManagerSeatsLeader(offered: TeamRole)
    requires Leads(offered)
    ensures var s, offer, acceptance := GuestWithRole, InviteMember(2, 11, "new", offered, 4), AcceptInvite(4, 13);
            && Sound(s) && NewKey(s, offer)
            && !OnlyOwnersRank(Next(s, offer), acceptance)
            && Next(Next(s, offer), acceptance).members == s.members[At(2, 13) := Seat(offered, None)]
  {
    var s, offer, acceptance := GuestWithRole, InviteMember(2, 11, "new", offered, 4), AcceptInvite(4, 13);
    GuestWithRoleIsSound();
    NextKeepsSound(s, offer);
    hide Sound, OnlyOwnersRank, Refusal, Effect, Next;
    ManagerMayOffer(offered);
    OnlyOwnersRankExactly(Next(s, offer), acceptance);
    AcceptedSeats(Next(s, offer), 4, 13);
  }

  lemma ManagerMayOffer(offered: TeamRole)
    ensures Next(GuestWithRole, InviteMember(2, 11, "new", offered, 4))
         == GuestWithRole.(invites := map[4 := Invite(2, 11, 13, offered, Pending)], issued := {1, 2, 3, 4})
  {
    assert Holds(GuestWithRole, 2, 11, TEAM_INVITE_MEMBER);
  }

  /** The owner gives the manager that custom role, and the manager may no longer invite. */
  lemma CustomRoleTakesManagersPermission()
    ensures var s, op := GuestWithRole, AssignCustomRole(2, 10, 11, Some(3));
            && Refusal(s, op).None?
            && Holds(s, 2, 11, TEAM_INVITE_MEMBER) && !Holds(Next(s, op), 2, 11, TEAM_INVITE_MEMBER)
  {
    var s := GuestWithRole;
    assert Holds(s, 2, 10, TEAM_UPDATE_ROLE);
    AssignedRoleReplaces(s, 2, 10, 11, 3, TEAM_INVITE_MEMBER);
    assert TEAM_INVITE_MEMBER[5] != TEAM_UPDATE_ROLE[5];
  }

  /** A manager holds every permission exactly when the custom role, if any, grants nothing or everything. */
  lemma ManagerHoldsAllExactly(roles: map<Id, RolePolicy>, seat: Seat)
    requires seat.role == Manager
    ensures ALL_PERMISSIONS <= ResolveTeamPermissions(roles, seat) <==>
              Granted(roles, seat) == [] || forall p | p in ALL_PERMISSIONS :: p in Granted(roles, seat)
  {
  }

  /** Giving a manager a custom role that grants anything leaves just that; an empty one leaves everything. */
  lemma AssignedRoleReplaces(s: State, t: Id, actor: Id, v: Id, r: Id, permission: string)
    requires Refusal(s, AssignCustomRole(t, actor, v, Some(r))).None? && s.members[At(t, v)].role == Manager
    ensures Holds(Next(s, AssignCustomRole(t, actor, v, Some(r))), t, v, permission) <==>
              if s.roles[r].permissions == [] then permission in ALL_PERMISSIONS
              else permission in s.roles[r].permissions
  {
  }

  /**
   An accepted invite seats its invitee in the invited role, without a custom
   role, and admits who is new to the workspace: as a guest iff invited as one.
   */
  lemma AcceptanceAdmits(s: State, i: Id, u: Id)
    requires Sound(s) && AddressedTo(s, i, u)
    ensures s.invites[i].team in s.teams && Admitted(s, Next(s, AcceptInvite(i, u)), s.invites[i], u)
  {
    AcceptTakesAFreeSeat(s, i, u);
    AcceptedSeatAdmits(s, i, u);
  }

  ghost predicate Admitted(s: State, w: State, invite: Invite, u: Id)
    requires invite.team in s.teams
  {
    var own := At(s.teams[invite.team], u);
    && w.members.Keys == s.members.Keys + {At(invite.team, u)}
    && w.members[At(invite.team, u)] == Seat(invite.role, None)
    && (forall k | k in s.members :: w.members[k] == s.members[k])
    && w.workspaceMembers.Keys == s.workspaceMembers.Keys + {own}
    && (forall k | k in s.workspaceMembers :: w.workspaceMembers[k] == s.workspaceMembers[k])
    && (own !in s.workspaceMembers ==>
          && w.workspaceMembers[own] in {WorkspaceGuest, WorkspaceMember}
          && (w.workspaceMembers[own] == WorkspaceGuest <==> invite.role == Guest))
  }

  lemma AcceptedSeatAdmits(s: State, i: Id, u: Id)
    requires AddressedTo(s, i, u) && s.invites[i].team in s.teams && At(s.invites[i].team, u) !in s.members
    ensures Admitted(s, Next(s, AcceptInvite(i, u)), s.invites[i], u)
  {
  }

  // ----------------------------------------------------- leaving a workspace

  /**
   Removing a member keeps the workspace membership exactly when it is an
   owner's or another team of the workspace still seats the user.
   */
  lemma RemovalLeavesTheWorkspace(s: State, t: Id, actor: Id, v: Id)
    requires Sound(s) && Refusal(s, RemoveMember(t, actor, v)).None?
    ensures var ws, w := s.teams[t], Next(s, RemoveMember(t, actor, v));
            && t in s.teams
            && At(t, v) !in w.members
            && (At(ws, v) in w.workspaceMembers <==>
                  || s.workspaceMembers[At(ws, v)] == WorkspaceOwner
                  || exists x :: x != t && x in s.teams && s.teams[x] == ws && At(x, v) in s.members)
  {
    assert SeatSound(s, At(t, v));
  }

  /**
   A member with the right permission undoes an acceptance by removing the new
   member, unless that one is an owner, or both are managers.
   */
  lemma RemovalUndoesAcceptance(s: State, i: Id, u: Id, actor: Id)
    requires Sound(s) && AddressedTo(s, i, u) && actor != u
    requires Holds(s, s.invites[i].team, actor, TEAM_INVITE_MEMBER)
    ensures var t, w := s.invites[i].team, Next(s, AcceptInvite(i, u));
            var x := Next(w, RemoveMember(t, actor, u));
            if s.invites[i].role == Owner || (s.invites[i].role == Manager && s.members[At(t, actor)].role == Manager)
            then x == w else x.members == s.members
  {
    AcceptTakesAFreeSeat(s, i, u);
    AcceptedSeats(s, i, u);
    NewcomerRemoved(s, Next(s, AcceptInvite(i, u)), s.invites[i].team, actor, u, s.invites[i].role);
  }

  lemma NewcomerRemoved(s: State, w: State, t: Id, actor: Id, u: Id, role: TeamRole)
    requires actor != u && Holds(s, t, actor, TEAM_INVITE_MEMBER) && At(t, u) !in s.members
    requires w.roles == s.roles && w.members == s.members[At(t, u) := Seat(role, None)]
    ensures var x := Next(w, RemoveMember(t, actor, u));
            if role == Owner || (role == Manager && s.members[At(t, actor)].role == Manager)
            then x == w else x.members == s.members
  {
    SameRolesHold(s, w, t, actor);
    if Refusal(w, RemoveMember(t, actor, u)).None? {
      SeatsTakenAndGiven(s, w, t, actor, u, Seat(role, None));
    }
  }

  lemma SameRolesHold(s: State, w: State, t: Id, u: Id)
    requires At(t, u) in s.members && At(t, u) in w.members && s.members[At(t, u)] == w.members[At(t, u)]
    requires s.roles == w.roles
    ensures Holds(s, t, u, TEAM_INVITE_MEMBER) <==> Holds(w, t, u, TEAM_INVITE_MEMBER)
  {
  }

  lemma AcceptedSeats(s: State, i: Id, u: Id)
    requires AddressedTo(s, i, u)
    ensures Next(s, AcceptInvite(i, u)).members == s.members[At(s.invites[i].team, u) := Seat(s.invites[i].role, None)]
    ensures Next(s, AcceptInvite(i, u)).roles == s.roles
  {
  }

  lemma SeatsTakenAndGiven(s: State, w: State, t: Id, actor: Id, u: Id, seat: Seat)
    requires At(t, u) !in s.members && w.members == s.members[At(t, u) := seat]
    requires Refusal(w, RemoveMember(t, actor, u)).None?
    ensures Next(w, RemoveMember(t, actor, u)).members == s.members
  {
    RemovedSeats(w, t, actor, u);
    assert s.members[At(t, u) := seat] - {At(t, u)} == s.members;
  }

  lemma RemovedSeats(s: State, t: Id, actor: Id, v: Id)
    requires Refusal(s, RemoveMember(t, actor, v)).None?
    ensures Next(s, RemoveMember(t, actor, v)).members == s.members - {At(t, v)}
  {
  }
}
