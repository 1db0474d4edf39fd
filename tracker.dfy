/** The five services wired to one set of repositories, as the application
    assembles them: every service reads and saves into the same six stores.
    Each method runs the guards of its service in order and returns at the
    first refusal; the stores are fields that a successful call reassigns.
    Every method is proved to leave the stores exactly as the service's
    specification function says and to keep the store invariant. */
module Services {

  import opened Common
  import opened Roles
  import opened Users
  import opened Projects
  import Milestones
  import Tickets
  import BugReports
  import opened Store
  import Repository
  import MembershipRepository
  import UserRepository
  import MilestoneRepository
  import TicketRepository
  import BugReportRepository
  import UserService
  import ProjectService
  import MilestoneService
  import TicketService
  import BugReportService

  class Tracker {
    var users: map<Uuid, User>
    var projects: map<Uuid, Project>
    var memberships: MembershipRepository.Storage
    var milestones: map<Uuid, Milestones.Milestone>
    var tickets: map<Uuid, Tickets.Ticket>
    var bugs: map<Uuid, BugReports.BugReport>

    /** The contents of the six stores as one value. */
    function Snapshot(): State
      reads this
    {
      State(users, projects, memberships, milestones, tickets, bugs)
    }

    ghost predicate Valid()
      reads this
    {
      Inv(Snapshot())
    }

    /** Empty repositories. */
    constructor ()
      ensures Valid() && Snapshot() == Empty()
    {
      users := map[];
      projects := map[];
      memberships := map[];
      milestones := map[];
      tickets := map[];
      bugs := map[];
    }

    // ---- users ----

    /** Registers a user under the fresh id `id`. */
    method Register(id: Uuid, name: string, email: string) returns (r: Result<User>)
      requires Valid() && id !in users
      modifies this
      ensures Valid()
      ensures Outcome(r, Snapshot()) == UserService.Register(old(Snapshot()), id, name, email)
    {
      UserService.RegisterKeepsInv(Snapshot(), id, name, email);
      var taken := UserRepository.ExistsByEmail(users, email);
      if taken {
        return Failure(DuplicateEmail(email));
      }
      var created := Users.Create(id, name, email);
      if created.Failure? {
        return Failure(created.error);
      }
      var user := created.value;
      users := Repository.Save(users, user.id, user);
      r := Success(user);
    }

    method FindUser(userId: Uuid) returns (r: Option<User>)
      ensures r == UserService.FindById(Snapshot(), userId)
      ensures r.Some? <==> userId in users
    {
      r := Repository.FindById(users, userId);
    }

    // ---- projects ----

    /** Creates the project `id` managed by its creator. */
    method CreateProject(id: Uuid, name: string, description: Option<string>, creatorId: Uuid)
      returns (r: Result<Project>)
      requires Valid() && id !in projects
      modifies this
      ensures Valid()
      ensures Outcome(r, Snapshot()) == ProjectService.CreateProject(old(Snapshot()), id, name, description, creatorId)
    {
      ProjectService.CreateProjectKeepsInv(Snapshot(), id, name, description, creatorId);
      if Repository.FindById(users, creatorId).None? {
        return Failure(UserNotFound);
      }
      var created := Projects.Create(id, name, description, creatorId);
      if created.Failure? {
        return Failure(created.error);
      }
      var project := created.value;
      projects := Repository.Save(projects, project.id, project);
      memberships := MembershipRepository.Save(memberships, Of(creatorId, project.id, Manager));
      r := Success(project);
    }

    /** The project, provided it exists and `userId` is its Manager. */
    method WithManagerAccess(projectId: Uuid, userId: Uuid) returns (r: Result<Project>)
      ensures r == ProjectService.ManagerAccess(Snapshot(), projectId, userId)
      ensures r.Success? ==> r.value == projects[projectId]
    {
      var project := Repository.FindById(projects, projectId);
      if project.None? {
        return Failure(ProjectNotFound);
      }
      var role := MembershipRepository.GetRole(memberships, userId, projectId);
      if role != Some(Manager) {
        return Failure(NotPermitted);
      }
      r := Success(project.value);
    }

    method AssignTeamLead(projectId: Uuid, teamLeadId: Uuid, currentUserId: Uuid) returns (r: Result<Project>)
      requires Valid()
      modifies this
      ensures Valid()
      ensures Outcome(r, Snapshot()) == ProjectService.AssignTeamLead(old(Snapshot()), projectId, teamLeadId, currentUserId)
    {
      ghost var s0 := Snapshot();
      var access := WithManagerAccess(projectId, currentUserId);
      if access.Failure? {
        return Failure(access.error);
      }
      var project := access.value;
      if Repository.FindById(users, teamLeadId).None? {
        return Failure(UserNotFound);
      }
      if project.managerId == teamLeadId {
        return Failure(ManagerCannotBeTeamLead);
      }
      var updated := project.WithTeamLead(teamLeadId);
      projects := Repository.Save(projects, updated.id, updated);
      memberships := MembershipRepository.Save(memberships, Of(teamLeadId, projectId, TeamLead));
      r := Success(updated);
      assert Snapshot() == s0.(projects := s0.projects[updated.id := updated],
                               memberships := ProjectService.Grant(s0, teamLeadId, projectId, TeamLead));
      ProjectService.AssignTeamLeadKeepsInv(s0, projectId, teamLeadId, currentUserId);
    }

    method AddDeveloper(projectId: Uuid, developerId: Uuid, currentUserId: Uuid) returns (r: Result<Project>)
      requires Valid()
      modifies this
      ensures Valid()
      ensures Outcome(r, Snapshot()) == ProjectService.AddDeveloper(old(Snapshot()), projectId, developerId, currentUserId)
    {
      ghost var s0 := Snapshot();
      var access := WithManagerAccess(projectId, currentUserId);
      if access.Failure? {
        return Failure(access.error);
      }
      var project := access.value;
      if Repository.FindById(users, developerId).None? {
        return Failure(UserNotFound);
      }
      if project.managerId == developerId {
        return Failure(ManagerCannotBeDeveloper);
      }
      if developerId in project.developerIds {
        return Failure(AlreadyDeveloper);
      }
      var updated := project.WithDeveloper(developerId);
      projects := Repository.Save(projects, updated.id, updated);
      memberships := MembershipRepository.Save(memberships, Of(developerId, projectId, Developer));
      r := Success(updated);
      assert Snapshot() == s0.(projects := s0.projects[updated.id := updated],
                               memberships := ProjectService.Grant(s0, developerId, projectId, Developer));
      ProjectService.AddDeveloperKeepsInv(s0, projectId, developerId, currentUserId);
    }

    method AddTester(projectId: Uuid, testerId: Uuid, currentUserId: Uuid) returns (r: Result<Project>)
      requires Valid()
      modifies this
      ensures Valid()
      ensures Outcome(r, Snapshot()) == ProjectService.AddTester(old(Snapshot()), projectId, testerId, currentUserId)
    {
      ghost var s0 := Snapshot();
      var access := WithManagerAccess(projectId, currentUserId);
      if access.Failure? {
        return Failure(access.error);
      }
      var project := access.value;
      if Repository.FindById(users, testerId).None? {
        return Failure(UserNotFound);
      }
      if project.managerId == testerId {
        return Failure(ManagerCannotBeTester);
      }
      var updated := project.WithTester(testerId);
      projects := Repository.Save(projects, updated.id, updated);
      memberships := MembershipRepository.Save(memberships, Of(testerId, projectId, Tester));
      r := Success(updated);
      assert Snapshot() == s0.(projects := s0.projects[updated.id := updated],
                               memberships := ProjectService.Grant(s0, testerId, projectId, Tester));
      ProjectService.AddTesterKeepsInv(s0, projectId, testerId, currentUserId);
    }

    method GetProjectMembers(projectId: Uuid) returns (r: MembershipRepository.Storage)
      ensures r == ProjectService.GetProjectMembers(Snapshot(), projectId)
      ensures forall k :: k in r ==> r[k].projectId == projectId
    {
      r := MembershipRepository.FindByProjectId(memberships, projectId);
    }

    // ---- milestones ----

    /** Whether `userId` holds the Manager role in `projectId`. */
    method IsManager(userId: Uuid, projectId: Uuid) returns (b: bool)
      ensures b <==> Store.IsManager(Snapshot(), userId, projectId)
    {
      b := MembershipRepository.GetRole(memberships, userId, projectId) == Some(Manager);
    }

    method CreateMilestone(id: Uuid, name: string, projectId: Uuid, startDate: Day, endDate: Day, userId: Uuid)
      returns (r: Result<Milestones.Milestone>)
      requires Valid() && id !in milestones
      modifies this
      ensures Valid()
      ensures Outcome(r, Snapshot()) ==
                MilestoneService.CreateMilestone(old(Snapshot()), id, name, projectId, startDate, endDate, userId)
    {
      MilestoneService.CreateMilestoneKeepsInv(Snapshot(), id, name, projectId, startDate, endDate, userId);
      var manager := IsManager(userId, projectId);
      if !manager {
        return Failure(CannotCreateMilestone);
      }
      if Repository.FindById(projects, projectId).None? {
        return Failure(ProjectNotFound);
      }
      var created := Milestones.Create(id, name, projectId, startDate, endDate);
      if created.Failure? {
        return Failure(created.error);
      }
      var milestone := created.value;
      milestones := Repository.Save(milestones, milestone.id, milestone);
      r := Success(milestone);
    }

    /** The milestone, provided it exists and `userId` is Manager of its project. */
    method WithMilestone(milestoneId: Uuid, userId: Uuid) returns (r: Result<Milestones.Milestone>)
      ensures r == MilestoneService.MilestoneAccess(Snapshot(), milestoneId, userId)
      ensures r.Success? ==> r.value == milestones[milestoneId]
    {
      var milestone := Repository.FindById(milestones, milestoneId);
      if milestone.None? {
        return Failure(MilestoneNotFound);
      }
      var manager := IsManager(userId, milestone.value.projectId);
      if !manager {
        return Failure(CannotManageMilestones);
      }
      r := Success(milestone.value);
    }

    method ActivateMilestone(milestoneId: Uuid, userId: Uuid) returns (r: Result<Milestones.Milestone>)
      requires Valid()
      modifies this
      ensures Valid()
      ensures Outcome(r, Snapshot()) == MilestoneService.ActivateMilestone(old(Snapshot()), milestoneId, userId)
    {
      MilestoneService.ActivateMilestoneKeepsInv(Snapshot(), milestoneId, userId);
      var access := WithMilestone(milestoneId, userId);
      if access.Failure? {
        return Failure(access.error);
      }
      var milestone := access.value;
      var hasActive := MilestoneRepository.HasActiveMilestone(milestones, milestone.projectId);
      if hasActive {
        return Failure(ActiveMilestoneExists);
      }
      if milestone.status != Milestones.Open {
        return Failure(CanActivateOnlyOpen);
      }
      var activated := milestone.Activate();
      milestones := Repository.Save(milestones, activated.id, activated);
      r := Success(activated);
    }

    method CloseMilestone(milestoneId: Uuid, userId: Uuid) returns (r: Result<Milestones.Milestone>)
      requires Valid()
      modifies this
      ensures Valid()
      ensures Outcome(r, Snapshot()) == MilestoneService.CloseMilestone(old(Snapshot()), milestoneId, userId)
    {
      MilestoneService.CloseMilestoneKeepsInv(Snapshot(), milestoneId, userId);
      var access := WithMilestone(milestoneId, userId);
      if access.Failure? {
        return Failure(access.error);
      }
      var milestone := access.value;
      if milestone.status != Milestones.Active {
        return Failure(CanCloseOnlyActive);
      }
      var incomplete := TicketRepository.CountIncomplete(tickets, milestoneId);
      if incomplete > 0 {
        return Failure(IncompleteTickets(incomplete));
      }
      var closed := milestone.Close();
      milestones := Repository.Save(milestones, closed.id, closed);
      r := Success(closed);
    }

    // ---- tickets ----

    method CreateTicket(id: Uuid, title: string, description: Option<string>,
                        projectId: Uuid, milestoneId: Uuid, userId: Uuid) returns (r: Result<Tickets.Ticket>)
      requires Valid() && id !in tickets
      modifies this
      ensures Valid()
      ensures Outcome(r, Snapshot()) ==
                TicketService.CreateTicket(old(Snapshot()), id, title, description, projectId, milestoneId, userId)
    {
      TicketService.CreateTicketKeepsInv(Snapshot(), id, title, description, projectId, milestoneId, userId);
      var role := MembershipRepository.GetRole(memberships, userId, projectId);
      if !Permits(role, ManageTickets) {
        return Failure(CannotCreateTickets);
      }
      var milestone := Repository.FindById(milestones, milestoneId);
      if milestone.None? || milestone.value.projectId != projectId {
        return Failure(MilestoneNotFound);
      }
      if !milestone.value.CanAddTickets() {
        return Failure(ClosedMilestone);
      }
      var created := Tickets.Create(id, title, description, projectId, milestoneId);
      if created.Failure? {
        return Failure(created.error);
      }
      var ticket := created.value;
      tickets := Repository.Save(tickets, ticket.id, ticket);
      r := Success(ticket);
    }

    method AssignTicket(ticketId: Uuid, assigneeId: Uuid, userId: Uuid) returns (r: Result<Tickets.Ticket>)
      requires Valid()
      modifies this
      ensures Valid()
      ensures Outcome(r, Snapshot()) == TicketService.AssignTicket(old(Snapshot()), ticketId, assigneeId, userId)
    {
      TicketService.AssignTicketKeepsInv(Snapshot(), ticketId, assigneeId, userId);
      var ticket := Repository.FindById(tickets, ticketId);
      if ticket.None? {
        return Failure(TicketNotFound);
      }
      var role := MembershipRepository.GetRole(memberships, userId, ticket.value.projectId);
      if !Permits(role, ManageTickets) {
        return Failure(CannotAssignTickets);
      }
      var project := Repository.FindById(projects, ticket.value.projectId);
      if project.None? || !project.value.IsDeveloper(assigneeId) {
        return Failure(CannotBeAssigned);
      }
      var updated := ticket.value.WithAssignee(assigneeId);
      tickets := Repository.Save(tickets, updated.id, updated);
      r := Success(updated);
    }

    /** The path shared by the three status changes. */
    method UpdateTicketStatus(ticketId: Uuid, userId: Uuid, action: TicketService.Transition)
      returns (r: Result<Tickets.Ticket>)
      requires Valid()
      modifies this
      ensures Valid()
      ensures Outcome(r, Snapshot()) == TicketService.UpdateTicketStatus(old(Snapshot()), ticketId, userId, action)
    {
      TicketService.UpdateTicketStatusKeepsInv(Snapshot(), ticketId, userId, action);
      var ticket := Repository.FindById(tickets, ticketId);
      if ticket.None? {
        return Failure(TicketNotFound);
      }
      var role := MembershipRepository.GetRole(memberships, userId, ticket.value.projectId);
      if !Permits(role, ExecuteTickets) {
        return Failure(CannotUpdateTicketStatus);
      }
      if !ticket.value.IsAssignedTo(userId) {
        return Failure(AssignedToAnotherUser);
      }
      if ticket.value.status != action.Expected() {
        return Failure(IncorrectTicketStatus);
      }
      var updated := action.ApplyTo(ticket.value);
      tickets := Repository.Save(tickets, updated.id, updated);
      r := Success(updated);
    }

    method AcceptTicket(ticketId: Uuid, userId: Uuid) returns (r: Result<Tickets.Ticket>)
      requires Valid()
      modifies this
      ensures Valid()
      ensures Outcome(r, Snapshot()) == TicketService.AcceptTicket(old(Snapshot()), ticketId, userId)
    {
      r := UpdateTicketStatus(ticketId, userId, TicketService.ToAccepted);
    }

    method StartWork(ticketId: Uuid, userId: Uuid) returns (r: Result<Tickets.Ticket>)
      requires Valid()
      modifies this
      ensures Valid()
      ensures Outcome(r, Snapshot()) == TicketService.StartWork(old(Snapshot()), ticketId, userId)
    {
      r := UpdateTicketStatus(ticketId, userId, TicketService.ToInProgress);
    }

    method CompleteTicket(ticketId: Uuid, userId: Uuid) returns (r: Result<Tickets.Ticket>)
      requires Valid()
      modifies this
      ensures Valid()
      ensures Outcome(r, Snapshot()) == TicketService.CompleteTicket(old(Snapshot()), ticketId, userId)
    {
      r := UpdateTicketStatus(ticketId, userId, TicketService.ToDone);
    }

    method GetTicketStats(milestoneId: Uuid) returns (stats: map<Tickets.TicketStatus, nat>)
      ensures stats == TicketService.GetTicketStats(Snapshot(), milestoneId)
      ensures forall st :: Repository.CountOf(stats, st) ==
                |set k | k in tickets && tickets[k].milestoneId == milestoneId && tickets[k].status == st|
    {
      stats := TicketRepository.GetStatusStats(tickets, milestoneId);
    }

    // ---- bug reports ----

    method CreateBugReport(id: Uuid, title: string, description: Option<string>,
                           projectId: Uuid, userId: Uuid, createdAt: Timestamp) returns (r: Result<BugReports.BugReport>)
      requires Valid() && id !in bugs
      modifies this
      ensures Valid()
      ensures Outcome(r, Snapshot()) ==
                BugReportService.CreateBugReport(old(Snapshot()), id, title, description, projectId, userId, createdAt)
    {
      BugReportService.CreateBugReportKeepsInv(Snapshot(), id, title, description, projectId, userId, createdAt);
      if Repository.FindById(projects, projectId).None? {
        return Failure(ProjectNotFound);
      }
      var role := MembershipRepository.GetRole(memberships, userId, projectId);
      if !Permits(role, CreateBugReports) {
        return Failure(CannotCreateBugReports);
      }
      var created := BugReports.Create(id, title, description, projectId, userId, createdAt);
      if created.Failure? {
        return Failure(created.error);
      }
      var bug := created.value;
      bugs := Repository.Save(bugs, bug.id, bug);
      r := Success(bug);
    }

    method AssignBug(bugId: Uuid, assigneeId: Uuid, userId: Uuid) returns (r: Result<BugReports.BugReport>)
      requires Valid()
      modifies this
      ensures Valid()
      ensures Outcome(r, Snapshot()) == BugReportService.AssignBug(old(Snapshot()), bugId, assigneeId, userId)
    {
      BugReportService.AssignBugKeepsInv(Snapshot(), bugId, assigneeId, userId);
      var bug := Repository.FindById(bugs, bugId);
      if bug.None? {
        return Failure(BugNotFound);
      }
      var role := MembershipRepository.GetRole(memberships, userId, bug.value.projectId);
      if !Permits(role, ManageTickets) {
        return Failure(CannotAssignBugs);
      }
      var assigneeRole := MembershipRepository.GetRole(memberships, assigneeId, bug.value.projectId);
      if !Permits(assigneeRole, FixBugs) {
        return Failure(CannotFixBugs);
      }
      var updated := bug.value.WithAssignee(assigneeId);
      bugs := Repository.Save(bugs, updated.id, updated);
      r := Success(updated);
    }

    method MarkFixed(bugId: Uuid, userId: Uuid) returns (r: Result<BugReports.BugReport>)
      requires Valid()
      modifies this
      ensures Valid()
      ensures Outcome(r, Snapshot()) == BugReportService.MarkFixed(old(Snapshot()), bugId, userId)
    {
      BugReportService.MarkFixedKeepsInv(Snapshot(), bugId, userId);
      var bug := Repository.FindById(bugs, bugId);
      if bug.None? {
        return Failure(BugNotFound);
      }
      var role := MembershipRepository.GetRole(memberships, userId, bug.value.projectId);
      if !Permits(role, FixBugs) {
        return Failure(CannotFixBugs);
      }
      if bug.value.status != BugReports.New {
        return Failure(IncorrectBugStatus);
      }
      var updated := bug.value.MarkFixed();
      bugs := Repository.Save(bugs, updated.id, updated);
      r := Success(updated);
    }

    method MarkTested(bugId: Uuid, userId: Uuid) returns (r: Result<BugReports.BugReport>)
      requires Valid()
      modifies this
      ensures Valid()
      ensures Outcome(r, Snapshot()) == BugReportService.MarkTested(old(Snapshot()), bugId, userId)
    {
      BugReportService.MarkTestedKeepsInv(Snapshot(), bugId, userId);
      var bug := Repository.FindById(bugs, bugId);
      if bug.None? {
        return Failure(BugNotFound);
      }
      var role := MembershipRepository.GetRole(memberships, userId, bug.value.projectId);
      if !Permits(role, TestBugs) {
        return Failure(CannotTestBugs);
      }
      if bug.value.status != BugReports.Fixed {
        return Failure(IncorrectBugStatus);
      }
      var updated := bug.value.MarkTested();
      bugs := Repository.Save(bugs, updated.id, updated);
      r := Success(updated);
    }

    method CloseBug(bugId: Uuid, userId: Uuid) returns (r: Result<BugReports.BugReport>)
      requires Valid()
      modifies this
      ensures Valid()
      ensures Outcome(r, Snapshot()) == BugReportService.CloseBug(old(Snapshot()), bugId, userId)
    {
      BugReportService.CloseBugKeepsInv(Snapshot(), bugId, userId);
      var bug := Repository.FindById(bugs, bugId);
      if bug.None? {
        return Failure(BugNotFound);
      }
      var role := MembershipRepository.GetRole(memberships, userId, bug.value.projectId);
      if !Permits(role, TestBugs) {
        return Failure(CannotCloseBugs);
      }
      if bug.value.status != BugReports.Tested {
        return Failure(IncorrectBugStatus);
      }
      var updated := bug.value.Close();
      bugs := Repository.Save(bugs, updated.id, updated);
      r := Success(updated);
    }

    method GetBugStats(projectId: Uuid) returns (stats: map<BugReports.BugStatus, nat>)
      ensures stats == BugReportService.GetBugStats(Snapshot(), projectId)
      ensures forall st :: Repository.CountOf(stats, st) ==
                |set k | k in bugs && bugs[k].projectId == projectId && bugs[k].status == st|
    {
      stats := BugReportRepository.GetStatusStats(bugs, projectId);
    }
  }
}
