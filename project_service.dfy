/** Projects and their team roster. Every roster change is reserved to the
    project's manager and stores the changed project, then the candidate's
    membership. */
module ProjectService {

  import opened Common
  import opened Text
  import opened Roles
  import opened Users
  import opened Projects
  import opened Store
  import Repository
  import MembershipRepository

  /** The memberships a state holds once `userId` has been given `role` in `projectId`. */
  function Grant(s: State, userId: Uuid, projectId: Uuid, role: Role): (m: MembershipRepository.Storage)
    ensures RoleOf(s.(memberships := m), userId, projectId) == Some(role)
    ensures forall u, p :: (u, p) != (userId, projectId) ==> RoleOf(s.(memberships := m), u, p) == RoleOf(s, u, p)
  {
    MembershipRepository.Save(s.memberships, Of(userId, projectId, role))
  }

  /** Creates a project managed by its creator, who must be registered, and
      makes the creator its Manager. A refusal stores nothing. */
  function CreateProject(s: State, id: Uuid, name: string, description: Option<string>, creatorId: Uuid)
    : (o: Outcome<Project>)
    ensures o.result.Success? <==> creatorId in s.users && !IsBlank(name)
    ensures creatorId !in s.users ==> o.result == Failure(UserNotFound)
    ensures creatorId in s.users && IsBlank(name) ==> o.result == Failure(BlankName)
    ensures o.result.Failure? ==> o.after == s
    ensures o.result.Success? ==>
              o.result.value == Project(id, name, OrEmpty(description), creatorId, None, {}, {}) &&
              o.after == s.(projects := s.projects[id := o.result.value],
                            memberships := Grant(s, creatorId, id, Manager))
    ensures o.result.Success? ==> RoleOf(o.after, creatorId, id) == Some(Manager)
  {
    if Repository.FindById(s.users, creatorId).None? then
      Outcome(Failure(UserNotFound), s)
    else
      match Projects.Create(id, name, description, creatorId)
      case Failure(e) => Outcome(Failure(e), s)
      case Success(project) =>
        var saved := s.(projects := Repository.Save(s.projects, project.id, project));
        Outcome(Success(project), saved.(memberships := Grant(saved, creatorId, project.id, Manager)))
  }

  /** The guard of every roster change: the project must exist, then the
      acting user must hold the Manager role in it. */
  function ManagerAccess(s: State, projectId: Uuid, userId: Uuid): (r: Result<Project>)
    ensures r.Success? <==> projectId in s.projects && IsManager(s, userId, projectId)
    ensures projectId !in s.projects ==> r == Failure(ProjectNotFound)
    ensures projectId in s.projects && !IsManager(s, userId, projectId) ==> r == Failure(NotPermitted)
    ensures r.Success? ==> r.value == s.projects[projectId]
  {
    match Repository.FindById(s.projects, projectId)
    case None => Failure(ProjectNotFound)
    case Some(project) =>
      if !IsManager(s, userId, projectId) then Failure(NotPermitted) else Success(project)
  }

  /** Makes `teamLeadId` the team lead, silently replacing any previous lead,
      whose TeamLead membership stays in place. */
  function AssignTeamLead(s: State, projectId: Uuid, teamLeadId: Uuid, currentUserId: Uuid)
    : (o: Outcome<Project>)
    ensures o.result.Success? <==>
              ManagerAccess(s, projectId, currentUserId).Success? && teamLeadId in s.users &&
              s.projects[projectId].managerId != teamLeadId
    ensures ManagerAccess(s, projectId, currentUserId).Failure? ==>
              o.result == Failure(ManagerAccess(s, projectId, currentUserId).error)
    ensures ManagerAccess(s, projectId, currentUserId).Success? && teamLeadId !in s.users ==>
              o.result == Failure(UserNotFound)
    ensures ManagerAccess(s, projectId, currentUserId).Success? && teamLeadId in s.users &&
            s.projects[projectId].managerId == teamLeadId ==>
              o.result == Failure(ManagerCannotBeTeamLead)
    ensures o.result.Failure? ==> o.after == s
    ensures o.result.Success? ==>
              o.result.value == s.projects[projectId].WithTeamLead(teamLeadId) &&
              o.after == s.(projects := s.projects[o.result.value.id := o.result.value],
                            memberships := Grant(s, teamLeadId, projectId, TeamLead))
  {
    match ManagerAccess(s, projectId, currentUserId)
    case Failure(e) => Outcome(Failure(e), s)
    case Success(project) =>
      if Repository.FindById(s.users, teamLeadId).None? then
        Outcome(Failure(UserNotFound), s)
      else if project.managerId == teamLeadId then
        Outcome(Failure(ManagerCannotBeTeamLead), s)
      else
        var updated := project.WithTeamLead(teamLeadId);
        var saved := s.(projects := Repository.Save(s.projects, updated.id, updated));
        Outcome(Success(updated), saved.(memberships := Grant(saved, teamLeadId, projectId, TeamLead)))
  }

  /** Adds a developer; a user already in the developer set is refused. */
  function AddDeveloper(s: State, projectId: Uuid, developerId: Uuid, currentUserId: Uuid)
    : (o: Outcome<Project>)
    ensures o.result.Success? <==>
              ManagerAccess(s, projectId, currentUserId).Success? && developerId in s.users &&
              s.projects[projectId].managerId != developerId &&
              developerId !in s.projects[projectId].developerIds
    ensures ManagerAccess(s, projectId, currentUserId).Failure? ==>
              o.result == Failure(ManagerAccess(s, projectId, currentUserId).error)
    ensures ManagerAccess(s, projectId, currentUserId).Success? && developerId !in s.users ==>
              o.result == Failure(UserNotFound)
    ensures ManagerAccess(s, projectId, currentUserId).Success? && developerId in s.users &&
            s.projects[projectId].managerId == developerId ==>
              o.result == Failure(ManagerCannotBeDeveloper)
    ensures ManagerAccess(s, projectId, currentUserId).Success? && developerId in s.users &&
            s.projects[projectId].managerId != developerId &&
            developerId in s.projects[projectId].developerIds ==>
              o.result == Failure(AlreadyDeveloper)
    ensures o.result.Failure? ==> o.after == s
    ensures o.result.Success? ==>
              o.result.value == s.projects[projectId].WithDeveloper(developerId) &&
              o.after == s.(projects := s.projects[o.result.value.id := o.result.value],
                            memberships := Grant(s, developerId, projectId, Developer))
  {
    match ManagerAccess(s, projectId, currentUserId)
    case Failure(e) => Outcome(Failure(e), s)
    case Success(project) =>
      if Repository.FindById(s.users, developerId).None? then
        Outcome(Failure(UserNotFound), s)
      else if project.managerId == developerId then
        Outcome(Failure(ManagerCannotBeDeveloper), s)
      else if developerId in project.developerIds then
        Outcome(Failure(AlreadyDeveloper), s)
      else
        var updated := project.WithDeveloper(developerId);
        var saved := s.(projects := Repository.Save(s.projects, updated.id, updated));
        Outcome(Success(updated), saved.(memberships := Grant(saved, developerId, projectId, Developer)))
  }

  /** Adds a tester; unlike AddDeveloper, a user who already is a tester is
      not refused. */
  function AddTester(s: State, projectId: Uuid, testerId: Uuid, currentUserId: Uuid)
    : (o: Outcome<Project>)
    ensures o.result.Success? <==>
              ManagerAccess(s, projectId, currentUserId).Success? && testerId in s.users &&
              s.projects[projectId].managerId != testerId
    ensures ManagerAccess(s, projectId, currentUserId).Failure? ==>
              o.result == Failure(ManagerAccess(s, projectId, currentUserId).error)
    ensures ManagerAccess(s, projectId, currentUserId).Success? && testerId !in s.users ==>
              o.result == Failure(UserNotFound)
    ensures ManagerAccess(s, projectId, currentUserId).Success? && testerId in s.users &&
            s.projects[projectId].managerId == testerId ==>
              o.result == Failure(ManagerCannotBeTester)
    ensures o.result.Failure? ==> o.after == s
    ensures o.result.Success? ==>
              o.result.value == s.projects[projectId].WithTester(testerId) &&
              o.after == s.(projects := s.projects[o.result.value.id := o.result.value],
                            memberships := Grant(s, testerId, projectId, Tester))
  {
    match ManagerAccess(s, projectId, currentUserId)
    case Failure(e) => Outcome(Failure(e), s)
    case Success(project) =>
      if Repository.FindById(s.users, testerId).None? then
        Outcome(Failure(UserNotFound), s)
      else if project.managerId == testerId then
        Outcome(Failure(ManagerCannotBeTester), s)
      else
        var updated := project.WithTester(testerId);
        var saved := s.(projects := Repository.Save(s.projects, updated.id, updated));
        Outcome(Success(updated), saved.(memberships := Grant(saved, testerId, projectId, Tester)))
  }

  /** The stored memberships of the project, whatever their role. */
  function GetProjectMembers(s: State, projectId: Uuid): (r: MembershipRepository.Storage)
    ensures forall k :: k in r <==> k in s.memberships && s.memberships[k].projectId == projectId
    ensures forall k :: k in r ==> r[k] == s.memberships[k]
  {
    MembershipRepository.FindByProjectId(s.memberships, projectId)
  }

  lemma CreateProjectKeepsInv(s: State, id: Uuid, name: string, description: Option<string>, creatorId: Uuid)
    requires Inv(s) && id !in s.projects
    ensures Inv(CreateProject(s, id, name, description, creatorId).after)
  {
    var o := CreateProject(s, id, name, description, creatorId);
    if o.result.Success? {
      AddProjectKeepsInv(s, o.result.value);
    }
  }

  lemma AssignTeamLeadKeepsInv(s: State, projectId: Uuid, teamLeadId: Uuid, currentUserId: Uuid)
    requires Inv(s)
    ensures Inv(AssignTeamLead(s, projectId, teamLeadId, currentUserId).after)
  {
    var o := AssignTeamLead(s, projectId, teamLeadId, currentUserId);
    if o.result.Success? {
      RosterChangesKeepManagerOffTeam(s.projects[projectId], teamLeadId);
      UpdateRosterKeepsInv(s, o.result.value, teamLeadId, TeamLead);
    }
  }

  lemma AddDeveloperKeepsInv(s: State, projectId: Uuid, developerId: Uuid, currentUserId: Uuid)
    requires Inv(s)
    ensures Inv(AddDeveloper(s, projectId, developerId, currentUserId).after)
  {
    var o := AddDeveloper(s, projectId, developerId, currentUserId);
    if o.result.Success? {
      RosterChangesKeepManagerOffTeam(s.projects[projectId], developerId);
      UpdateRosterKeepsInv(s, o.result.value, developerId, Developer);
    }
  }

  lemma AddTesterKeepsInv(s: State, projectId: Uuid, testerId: Uuid, currentUserId: Uuid)
    requires Inv(s)
    ensures Inv(AddTester(s, projectId, testerId, currentUserId).after)
  {
    var o := AddTester(s, projectId, testerId, currentUserId);
    if o.result.Success? {
      RosterChangesKeepManagerOffTeam(s.projects[projectId], testerId);
      UpdateRosterKeepsInv(s, o.result.value, testerId, Tester);
    }
  }

  /** Roster changes never touch the manager: the manager keeps the Manager
      role, and nobody else gains it. */
  lemma RosterChangesKeepManager(s: State, projectId: Uuid, candidate: Uuid, currentUserId: Uuid)
    requires Inv(s) && projectId in s.projects
    ensures var manager := s.projects[projectId].managerId;
            RoleOf(AssignTeamLead(s, projectId, candidate, currentUserId).after, manager, projectId) == Some(Manager) &&
            RoleOf(AddDeveloper(s, projectId, candidate, currentUserId).after, manager, projectId) == Some(Manager) &&
            RoleOf(AddTester(s, projectId, candidate, currentUserId).after, manager, projectId) == Some(Manager)
    ensures candidate != s.projects[projectId].managerId ==>
              RoleOf(AssignTeamLead(s, projectId, candidate, currentUserId).after, candidate, projectId) != Some(Manager) &&
              RoleOf(AddDeveloper(s, projectId, candidate, currentUserId).after, candidate, projectId) != Some(Manager) &&
              RoleOf(AddTester(s, projectId, candidate, currentUserId).after, candidate, projectId) != Some(Manager)
  {
    RosterOutcomeKeepsManager(s, AssignTeamLead(s, projectId, candidate, currentUserId), projectId, candidate, TeamLead);
    RosterOutcomeKeepsManager(s, AddDeveloper(s, projectId, candidate, currentUserId), projectId, candidate, Developer);
    RosterOutcomeKeepsManager(s, AddTester(s, projectId, candidate, currentUserId), projectId, candidate, Tester);
  }

  /** A roster change that grants a role other than Manager to a candidate
      other than the manager, or changes nothing, leaves the Manager role
      with the manager alone. */
  lemma RosterOutcomeKeepsManager(s: State, o: Outcome<Project>, projectId: Uuid, candidate: Uuid, role: Role)
    requires Inv(s) && projectId in s.projects && role != Manager
    requires o.result.Failure? ==> o.after == s
    requires o.result.Success? ==>
               candidate != s.projects[projectId].managerId &&
               o.after.memberships == Grant(s, candidate, projectId, role)
    ensures RoleOf(o.after, s.projects[projectId].managerId, projectId) == Some(Manager)
    ensures candidate != s.projects[projectId].managerId ==> RoleOf(o.after, candidate, projectId) != Some(Manager)
  {
    ManagerRoleIsProjectManager(s, candidate, projectId);
    ManagerRoleIsProjectManager(s, s.projects[projectId].managerId, projectId);
    if o.result.Success? {
      assert RoleOf(o.after, candidate, projectId) == RoleOf(s.(memberships := o.after.memberships), candidate, projectId);
      assert RoleOf(o.after, s.projects[projectId].managerId, projectId) ==
             RoleOf(s.(memberships := o.after.memberships), s.projects[projectId].managerId, projectId);
    }
  }

  /** A replaced team lead keeps the TeamLead membership, although the project
      now names another lead. */
  lemma ReplacedLeadKeepsMembership(s: State, projectId: Uuid, oldLead: Uuid, newLead: Uuid, currentUserId: Uuid)
    requires Inv(s) && AssignTeamLead(s, projectId, oldLead, currentUserId).result.Success?
    requires oldLead != newLead
    ensures var first := AssignTeamLead(s, projectId, oldLead, currentUserId).after;
            var second := AssignTeamLead(first, projectId, newLead, currentUserId);
            second.result.Success? ==>
              second.after.projects[projectId].teamLeadId == Some(newLead) &&
              RoleOf(second.after, oldLead, projectId) == Some(TeamLead)
  {
  }

  /** Adding the same tester twice succeeds both times, the second time
      leaving the tester set as it was. */
  lemma AddTesterTwice(s: State, projectId: Uuid, testerId: Uuid, currentUserId: Uuid)
    requires Inv(s) && AddTester(s, projectId, testerId, currentUserId).result.Success?
    ensures var first := AddTester(s, projectId, testerId, currentUserId);
            var second := AddTester(first.after, projectId, testerId, currentUserId);
            second.result.Success? &&
            second.after.projects[projectId].testerIds == first.after.projects[projectId].testerIds
  {
    var first := AddTester(s, projectId, testerId, currentUserId);
    assert first.after.projects[projectId] == first.result.value;
    assert RoleOf(first.after, currentUserId, projectId) == Some(Manager) by {
      ManagerRoleIsProjectManager(s, currentUserId, projectId);
    }
  }

  /** Adding a developer twice is refused the second time. */
  lemma AddDeveloperTwiceRefused(s: State, projectId: Uuid, developerId: Uuid, currentUserId: Uuid)
    requires Inv(s) && AddDeveloper(s, projectId, developerId, currentUserId).result.Success?
    ensures var first := AddDeveloper(s, projectId, developerId, currentUserId);
            AddDeveloper(first.after, projectId, developerId, currentUserId).result == Failure(AlreadyDeveloper)
  {
    var first := AddDeveloper(s, projectId, developerId, currentUserId);
    assert first.after.projects[projectId] == first.result.value;
    assert RoleOf(first.after, currentUserId, projectId) == Some(Manager) by {
      ManagerRoleIsProjectManager(s, currentUserId, projectId);
    }
  }

  /** The manager of a stored project is always among its members, with the
      Manager role. */
  lemma ManagerIsMember(s: State, projectId: Uuid)
    requires Inv(s) && projectId in s.projects
    ensures var k := MembershipRepository.Key(s.projects[projectId].managerId, projectId);
            k in GetProjectMembers(s, projectId) && GetProjectMembers(s, projectId)[k].role == Manager
  {
    var k := MembershipRepository.Key(s.projects[projectId].managerId, projectId);
    assert RoleOf(s, s.projects[projectId].managerId, projectId) == Some(Manager);
    assert k in s.memberships;
  }
}
