/** The whole tracker state: one keyed store per entity, memberships keyed by
    (user, project), and the cross-entity invariant the services maintain. */
module Store {

  import opened Common
  import opened Text
  import opened Roles
  import opened Users
  import opened Projects
  import opened Milestones
  import opened Tickets
  import opened BugReports
  import MembershipRepository

  datatype State = State(
    users: map<Uuid, User>,
    projects: map<Uuid, Project>,
    memberships: MembershipRepository.Storage,
    milestones: map<Uuid, Milestone>,
    tickets: map<Uuid, Ticket>,
    bugs: map<Uuid, BugReport>)

  /** What a service operation returns, with the state it leaves behind. */
  datatype Outcome<T> = Outcome(result: Result<T>, after: State)

  function Empty(): (s: State)
    ensures Inv(s)
  {
    State(map[], map[], map[], map[], map[], map[])
  }

  /** The role `userId` holds in `projectId`, if any. */
  function RoleOf(s: State, userId: Uuid, projectId: Uuid): Option<Role> {
    MembershipRepository.GetRole(s.memberships, userId, projectId)
  }

  /** Every entity is stored under its own id, every membership under its pair. */
  ghost predicate KeysMatch(s: State) {
    (forall k :: k in s.users ==> s.users[k].id == k) &&
    (forall k :: k in s.projects ==> s.projects[k].id == k) &&
    (forall k :: k in s.milestones ==> s.milestones[k].id == k) &&
    (forall k :: k in s.tickets ==> s.tickets[k].id == k) &&
    (forall k :: k in s.bugs ==> s.bugs[k].id == k) &&
    (forall k :: k in s.memberships ==>
       k == MembershipRepository.Key(s.memberships[k].userId, s.memberships[k].projectId))
  }

  /** Every stored record passed its constructor's validation. */
  ghost predicate RecordsValid(s: State) {
    (forall k :: k in s.users ==> s.users[k].Valid()) &&
    (forall k :: k in s.projects ==> s.projects[k].Valid()) &&
    (forall k :: k in s.milestones ==> s.milestones[k].Valid()) &&
    (forall k :: k in s.tickets ==> s.tickets[k].Valid()) &&
    (forall k :: k in s.bugs ==> s.bugs[k].Valid())
  }

  /** No two users have e-mail addresses that are equal ignoring case. */
  ghost predicate UniqueEmails(s: State) {
    forall a, b ::
      a in s.users && b in s.users && EqualsIgnoreCase(s.users[a].email, s.users[b].email)
      ==> a == b
  }

  /** Every project's manager is a registered user holding the Manager role in
      it, and the Manager role is held by nobody else. */
  ghost predicate ManagersHold(s: State) {
    (forall p :: p in s.projects ==>
       s.projects[p].managerId in s.users &&
       RoleOf(s, s.projects[p].managerId, p) == Some(Manager)) &&
    (forall k :: k in s.memberships && s.memberships[k].role == Manager ==>
       k.1 in s.projects && s.projects[k.1].managerId == k.0)
  }

  /** No project's manager is also its team lead, a developer or a tester. */
  ghost predicate RostersExcludeManager(s: State) {
    forall p :: p in s.projects ==> s.projects[p].ManagerOffTeam()
  }

  /** Memberships bind registered users to stored projects. */
  ghost predicate MembershipsReferToStore(s: State) {
    forall k :: k in s.memberships ==> k.0 in s.users && k.1 in s.projects
  }

  /** At most one ACTIVE milestone per project. */
  ghost predicate SingleActiveMilestone(s: State) {
    forall a, b ::
      a in s.milestones && b in s.milestones &&
      s.milestones[a].status == Active && s.milestones[b].status == Active &&
      s.milestones[a].projectId == s.milestones[b].projectId
      ==> a == b
  }

  /** Milestones and bug reports belong to stored projects; a ticket belongs
      to a stored milestone of its own project. */
  ghost predicate ReferencesResolve(s: State) {
    (forall k :: k in s.milestones ==> s.milestones[k].projectId in s.projects) &&
    (forall k :: k in s.bugs ==> s.bugs[k].projectId in s.projects) &&
    (forall k :: k in s.tickets ==>
       s.tickets[k].milestoneId in s.milestones &&
       s.milestones[s.tickets[k].milestoneId].projectId == s.tickets[k].projectId)
  }

  /** Every ticket of a CLOSED milestone is DONE. */
  ghost predicate ClosedMilestonesComplete(s: State)
    requires ReferencesResolve(s)
  {
    forall k ::
      k in s.tickets && s.milestones[s.tickets[k].milestoneId].status == MilestoneStatus.Closed ==>
      s.tickets[k].status == Done
  }

  ghost predicate Inv(s: State) {
    KeysMatch(s) && RecordsValid(s) && UniqueEmails(s) && ManagersHold(s) &&
    RostersExcludeManager(s) && MembershipsReferToStore(s) && SingleActiveMilestone(s) && ReferencesResolve(s) &&
    ClosedMilestonesComplete(s)
  }

  /** Under the invariant, holding the Manager role in a project means being
      its manager. */
  lemma ManagerRoleIsProjectManager(s: State, userId: Uuid, projectId: Uuid)
    requires Inv(s)
    ensures RoleOf(s, userId, projectId) == Some(Manager) <==>
            projectId in s.projects && s.projects[projectId].managerId == userId
  {
    if RoleOf(s, userId, projectId) == Some(Manager) {
      assert MembershipRepository.Key(userId, projectId) in s.memberships;
    }
  }

  /** Whether `userId` holds the Manager role in `projectId`. */
  predicate IsManager(s: State, userId: Uuid, projectId: Uuid)
    ensures IsManager(s, userId, projectId) ==> MembershipRepository.Find(s.memberships, userId, projectId).Some?
    ensures IsManager(s, userId, projectId) ==> Permits(RoleOf(s, userId, projectId), ManageTickets)
    ensures IsManager(s, userId, projectId) ==> !Permits(RoleOf(s, userId, projectId), ExecuteTickets)
  {
    RoleOf(s, userId, projectId) == Some(Manager)
  }

  /** Storing a new user whose address no stored user has, ignoring case,
      keeps the invariant. */
  lemma AddUserKeepsInv(s: State, u: User)
    requires Inv(s) && u.id !in s.users && u.Valid()
    requires forall k :: k in s.users ==> !EqualsIgnoreCase(s.users[k].email, u.email)
    ensures Inv(s.(users := s.users[u.id := u]))
  {
    var s' := s.(users := s.users[u.id := u]);
    forall a, b | a in s'.users && b in s'.users && EqualsIgnoreCase(s'.users[a].email, s'.users[b].email)
      ensures a == b
    {
    }
    assert KeysMatch(s');
    assert RecordsValid(s');
    assert ManagersHold(s');
    assert RostersExcludeManager(s');
    assert MembershipsReferToStore(s');
    assert SingleActiveMilestone(s');
    assert ReferencesResolve(s');
    assert ClosedMilestonesComplete(s');
  }

  /** Storing a new project together with its manager's Manager membership
      keeps the invariant. */
  lemma AddProjectKeepsInv(s: State, p: Project)
    requires Inv(s) && p.id !in s.projects && p.Valid() && p.ManagerOffTeam() && p.managerId in s.users
    ensures Inv(s.(projects := s.projects[p.id := p],
                   memberships := MembershipRepository.Save(s.memberships,
                                                            Of(p.managerId, p.id, Manager))))
  {
    var s' := s.(projects := s.projects[p.id := p],
                 memberships := MembershipRepository.Save(s.memberships, Of(p.managerId, p.id, Manager)));
    AddProjectKeepsMembershipRules(s, p);
    assert RostersExcludeManager(s');
    assert RecordsValid(s');
    assert UniqueEmails(s');
    assert SingleActiveMilestone(s');
    assert ReferencesResolve(s');
    assert ClosedMilestonesComplete(s');
  }

  lemma AddProjectKeepsMembershipRules(s: State, p: Project)
    requires KeysMatch(s) && ManagersHold(s) && MembershipsReferToStore(s)
    requires p.id !in s.projects && p.managerId in s.users
    ensures var s' := s.(projects := s.projects[p.id := p],
                         memberships := MembershipRepository.Save(s.memberships, Of(p.managerId, p.id, Manager)));
            KeysMatch(s') && ManagersHold(s') && MembershipsReferToStore(s')
  {
    var s' := s.(projects := s.projects[p.id := p],
                 memberships := MembershipRepository.Save(s.memberships, Of(p.managerId, p.id, Manager)));
    forall k | k in s'.memberships && s'.memberships[k].role == Manager
      ensures k.1 in s'.projects && s'.projects[k.1].managerId == k.0
    {
      if k != MembershipRepository.Key(p.managerId, p.id) {
        assert k in s.memberships;
      }
    }
    forall q | q in s'.projects
      ensures s'.projects[q].managerId in s'.users && RoleOf(s', s'.projects[q].managerId, q) == Some(Manager)
    {
      if q != p.id {
        assert RoleOf(s, s.projects[q].managerId, q) == Some(Manager);
      }
    }
  }

  /** Replacing a project by a roster change of it and giving a registered
      user other than its manager a non-Manager role in it keeps the invariant. */
  lemma UpdateRosterKeepsInv(s: State, p: Project, userId: Uuid, role: Role)
    requires Inv(s) && p.id in s.projects && p.SameIdentity(s.projects[p.id]) && p.ManagerOffTeam()
    requires userId in s.users && userId != p.managerId && role != Manager
    ensures Inv(s.(projects := s.projects[p.id := p],
                   memberships := MembershipRepository.Save(s.memberships, Of(userId, p.id, role))))
  {
    var s' := s.(projects := s.projects[p.id := p],
                 memberships := MembershipRepository.Save(s.memberships, Of(userId, p.id, role)));
    UpdateRosterKeepsMembershipRules(s, p, userId, role);
    assert p.Valid();
    RosterKeepsRecordRules(s, s');
    PutProjectKeepsRosterRule(s, s', p);
  }

  /** Storing a project whose manager is off its team keeps every manager
      off every team. */
  lemma PutProjectKeepsRosterRule(s: State, s': State, p: Project)
    requires RostersExcludeManager(s) && p.ManagerOffTeam()
    requires s'.projects == s.projects[p.id := p]
    ensures RostersExcludeManager(s')
  {
  }

  /** The rules about records other than memberships survive a change that
      replaces projects by valid ones and touches no other record. */
  lemma RosterKeepsRecordRules(s: State, s': State)
    requires RecordsValid(s) && UniqueEmails(s) && SingleActiveMilestone(s) && ReferencesResolve(s)
    requires ClosedMilestonesComplete(s)
    requires s'.users == s.users && s'.milestones == s.milestones && s'.tickets == s.tickets && s'.bugs == s.bugs
    requires s'.projects.Keys == s.projects.Keys && forall k :: k in s'.projects ==> s'.projects[k].Valid()
    ensures RecordsValid(s') && UniqueEmails(s') && SingleActiveMilestone(s') && ReferencesResolve(s')
    ensures ClosedMilestonesComplete(s')
  {
  }

  lemma UpdateRosterKeepsMembershipRules(s: State, p: Project, userId: Uuid, role: Role)
    requires KeysMatch(s) && ManagersHold(s) && MembershipsReferToStore(s)
    requires p.id in s.projects && p.SameIdentity(s.projects[p.id])
    requires userId in s.users && userId != p.managerId && role != Manager
    ensures var s' := s.(projects := s.projects[p.id := p],
                         memberships := MembershipRepository.Save(s.memberships, Of(userId, p.id, role)));
            KeysMatch(s') && ManagersHold(s') && MembershipsReferToStore(s')
  {
    var s' := s.(projects := s.projects[p.id := p],
                 memberships := MembershipRepository.Save(s.memberships, Of(userId, p.id, role)));
    forall k | k in s'.memberships && s'.memberships[k].role == Manager
      ensures k.1 in s'.projects && s'.projects[k.1].managerId == k.0
    {
      assert k in s.memberships && s.memberships[k] == s'.memberships[k];
    }
    forall q | q in s'.projects
      ensures s'.projects[q].managerId in s'.users && RoleOf(s', s'.projects[q].managerId, q) == Some(Manager)
    {
      assert RoleOf(s, s.projects[q].managerId, q) == Some(Manager);
    }
  }

  /** Storing a milestone keeps the invariant when it is valid, belongs to a
      stored project (the same one as before, if it replaces a milestone), is
      the only ACTIVE milestone of its project if ACTIVE, and has only DONE
      tickets if CLOSED. */
  lemma PutMilestoneKeepsInv(s: State, m: Milestone)
    requires Inv(s) && m.Valid() && m.projectId in s.projects
    requires m.id in s.milestones ==> s.milestones[m.id].projectId == m.projectId
    requires m.status == Active ==>
               forall k :: k in s.milestones && k != m.id && s.milestones[k].projectId == m.projectId ==>
                 s.milestones[k].status != Active
    requires m.status == MilestoneStatus.Closed ==>
               forall k :: k in s.tickets && s.tickets[k].milestoneId == m.id ==> s.tickets[k].status == Done
    ensures Inv(s.(milestones := s.milestones[m.id := m]))
  {
    var s' := s.(milestones := s.milestones[m.id := m]);
    PutMilestoneKeepsMilestoneRules(s, m);
    assert KeysMatch(s');
    assert RecordsValid(s');
    assert UniqueEmails(s');
    assert ManagersHold(s');
    assert RostersExcludeManager(s');
    assert MembershipsReferToStore(s');
  }

  lemma PutMilestoneKeepsMilestoneRules(s: State, m: Milestone)
    requires SingleActiveMilestone(s) && ReferencesResolve(s) && ClosedMilestonesComplete(s)
    requires m.projectId in s.projects
    requires m.id in s.milestones ==> s.milestones[m.id].projectId == m.projectId
    requires m.status == Active ==>
               forall k :: k in s.milestones && k != m.id && s.milestones[k].projectId == m.projectId ==>
                 s.milestones[k].status != Active
    requires m.status == MilestoneStatus.Closed ==>
               forall k :: k in s.tickets && s.tickets[k].milestoneId == m.id ==> s.tickets[k].status == Done
    ensures var s' := s.(milestones := s.milestones[m.id := m]);
            SingleActiveMilestone(s') && ReferencesResolve(s') && ClosedMilestonesComplete(s')
  {
    var s' := s.(milestones := s.milestones[m.id := m]);
    forall a, b | a in s'.milestones && b in s'.milestones &&
                  s'.milestones[a].status == Active && s'.milestones[b].status == Active &&
                  s'.milestones[a].projectId == s'.milestones[b].projectId
      ensures a == b
    {
      if a != m.id && b != m.id {
        assert s.milestones[a] == s'.milestones[a] && s.milestones[b] == s'.milestones[b];
      }
    }
    assert ReferencesResolve(s');
    forall k | k in s'.tickets && s'.milestones[s'.tickets[k].milestoneId].status == MilestoneStatus.Closed
      ensures s'.tickets[k].status == Done
    {
      if s.tickets[k].milestoneId != m.id {
        assert s.milestones[s.tickets[k].milestoneId] == s'.milestones[s'.tickets[k].milestoneId];
      }
    }
  }

  /** Storing a ticket keeps the invariant when it is valid, belongs to a
      stored milestone of its own project, and is DONE if that milestone is
      CLOSED. */
  lemma PutTicketKeepsInv(s: State, t: Ticket)
    requires Inv(s) && t.Valid()
    requires t.milestoneId in s.milestones && s.milestones[t.milestoneId].projectId == t.projectId
    requires s.milestones[t.milestoneId].status == MilestoneStatus.Closed ==> t.status == Done
    ensures Inv(s.(tickets := s.tickets[t.id := t]))
  {
    var s' := s.(tickets := s.tickets[t.id := t]);
    assert KeysMatch(s');
    assert RecordsValid(s');
    assert UniqueEmails(s');
    assert ManagersHold(s');
    assert RostersExcludeManager(s');
    assert MembershipsReferToStore(s');
    assert SingleActiveMilestone(s');
    assert ReferencesResolve(s');
    assert ClosedMilestonesComplete(s');
  }

  /** Storing a valid bug report of a stored project keeps the invariant. */
  lemma PutBugKeepsInv(s: State, b: BugReport)
    requires Inv(s) && b.Valid() && b.projectId in s.projects
    ensures Inv(s.(bugs := s.bugs[b.id := b]))
  {
    var s' := s.(bugs := s.bugs[b.id := b]);
    assert KeysMatch(s');
    assert RecordsValid(s');
    assert UniqueEmails(s');
    assert ManagersHold(s');
    assert RostersExcludeManager(s');
    assert MembershipsReferToStore(s');
    assert SingleActiveMilestone(s');
    assert ReferencesResolve(s');
    assert ClosedMilestonesComplete(s');
  }
}
