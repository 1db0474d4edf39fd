/** The flow of the application's sample session, with its manager, its
    first developer, its project and its first ticket: the team registers,
    the manager staffs the project, opens and activates a sprint milestone
    and files the ticket, and the developer completes it before the sprint
    is closed. Two refusals the sample session does not exercise are added:
    closing the sprint while the ticket is open, and filing a ticket into the
    closed sprint. Every step is stated as the exact outcome of one service
    call on a concrete state. */
module SampleSession {

  import opened Common
  import opened Text
  import opened Roles
  import opened Users
  import opened Projects
  import opened Milestones
  import opened Tickets
  import opened Store
  import UserRepository
  import Repository
  import TicketRepository
  import UserService
  import ProjectService
  import MilestoneService
  import TicketService

  const ManagerId: Uuid := 1
  const DeveloperId: Uuid := 2
  const ProjectId: Uuid := 10
  const SprintId: Uuid := 20
  const TicketId: Uuid := 30

  const ManagerName := "Карим Хасан"
  const ManagerEmail := "kslacker@company.com"
  const DeveloperName := "Хасан Карим"
  const DeveloperEmail := "kkhasan@company.com"
  const ProjectName := "Лаба по джаве"
  const ProjectDescription := "Проектище"
  const TicketTitle := "Архитектура проекта"
  const TicketDescription := "Подумать"

  function Boss(): User { User(ManagerId, ManagerName, ManagerEmail) }
  function Dev(): User { User(DeveloperId, DeveloperName, DeveloperEmail) }
  function Team(): map<Uuid, User> { map[ManagerId := Boss(), DeveloperId := Dev()] }

  function StaffedProject(): Project {
    Project(ProjectId, ProjectName, ProjectDescription, ManagerId, None, {DeveloperId}, {})
  }

  function StaffedMemberships(): MembershipRepository.Storage {
    map[(ManagerId, ProjectId) := Membership(ManagerId, ProjectId, Manager),
        (DeveloperId, ProjectId) := Membership(DeveloperId, ProjectId, Developer)]
  }

  function Staffed(): State {
    State(Team(), map[ProjectId := StaffedProject()], StaffedMemberships(), map[], map[], map[])
  }

  function Sprint(status: MilestoneStatus): Milestone {
    Milestone(SprintId, "Sprint 1", ProjectId, 0, 14, status)
  }

  function Task(assigneeIds: set<Uuid>, status: TicketStatus): Ticket {
    Ticket(TicketId, TicketTitle, TicketDescription, ProjectId, SprintId, assigneeIds, status)
  }

  /** The staffed project with the sprint in `status` and the given tickets. */
  function Planned(status: MilestoneStatus, tickets: map<Uuid, Ticket>): State {
    Staffed().(milestones := map[SprintId := Sprint(status)], tickets := tickets)
  }

  /** Both team members register; the addresses differ, ignoring case. */
  lemma RegisterTeam()
    ensures UserService.Register(Empty(), ManagerId, ManagerName, ManagerEmail) ==
            Outcome(Success(Boss()), Empty().(users := map[ManagerId := Boss()]))
    ensures UserService.Register(Empty().(users := map[ManagerId := Boss()]), DeveloperId, DeveloperName, DeveloperEmail) ==
            Outcome(Success(Dev()), Empty().(users := Team()))
  {
    assert !IsWhitespace(ManagerName[0]);
    assert !IsWhitespace(DeveloperName[0]);
    assert |Lower(DeveloperEmail)| != |Lower(ManagerEmail)|;
    assert !UserRepository.EmailTaken(map[ManagerId := Boss()], DeveloperEmail);
  }

  /** The project just created: managed by its creator, nobody else on the team. */
  function Founded(): State {
    Empty().(users := Team(),
             projects := map[ProjectId := Project(ProjectId, ProjectName, ProjectDescription, ManagerId, None, {}, {})],
             memberships := map[(ManagerId, ProjectId) := Membership(ManagerId, ProjectId, Manager)])
  }

  /** The manager creates the project, becoming its Manager. */
  lemma FoundProject()
    ensures ProjectService.CreateProject(Empty().(users := Team()), ProjectId, ProjectName, Some(ProjectDescription), ManagerId) ==
            Outcome(Success(Founded().projects[ProjectId]), Founded())
  {
    assert !IsWhitespace(ProjectName[0]);
  }

  /** The manager adds the developer to the project. */
  lemma StaffProject()
    ensures ProjectService.AddDeveloper(Founded(), ProjectId, DeveloperId, ManagerId) ==
            Outcome(Success(StaffedProject()), Staffed())
  {
    assert Founded().projects[ProjectId].WithDeveloper(DeveloperId) == StaffedProject();
  }

  /** The manager opens the sprint and activates it. */
  lemma OpenSprint()
    ensures MilestoneService.CreateMilestone(Staffed(), SprintId, "Sprint 1", ProjectId, 0, 14, ManagerId) ==
            Outcome(Success(Sprint(Open)), Planned(Open, map[]))
    ensures MilestoneService.ActivateMilestone(Planned(Open, map[]), SprintId, ManagerId) ==
            Outcome(Success(Sprint(Active)), Planned(Active, map[]))
  {
    assert !IsWhitespace("Sprint 1"[0]);
  }

  /** The manager files the ticket and assigns it to the developer. */
  lemma FileTicket()
    ensures TicketService.CreateTicket(Planned(Active, map[]), TicketId, TicketTitle, Some(TicketDescription), ProjectId, SprintId, ManagerId) ==
            Outcome(Success(Task({}, New)), Planned(Active, map[TicketId := Task({}, New)]))
    ensures TicketService.AssignTicket(Planned(Active, map[TicketId := Task({}, New)]), TicketId, DeveloperId, ManagerId) ==
            Outcome(Success(Task({DeveloperId}, New)), Planned(Active, map[TicketId := Task({DeveloperId}, New)]))
  {
    assert !IsWhitespace(TicketTitle[0]);
    assert Task({}, New).WithAssignee(DeveloperId) == Task({DeveloperId}, New);
    assert Staffed().projects[ProjectId].IsDeveloper(DeveloperId);
  }

  /** With the ticket still NEW, closing the sprint reports one incomplete ticket. */
  lemma EarlyCloseRefused()
    ensures MilestoneService.CloseMilestone(Planned(Active, map[TicketId := Task({DeveloperId}, New)]), SprintId, ManagerId) ==
            Outcome(Failure(IncompleteTickets(1)), Planned(Active, map[TicketId := Task({DeveloperId}, New)]))
  {
    var tickets := map[TicketId := Task({DeveloperId}, New)];
    var ofSprint := TicketRepository.FindByMilestoneId(tickets, SprintId);
    assert ofSprint == tickets;
    assert Repository.FindAll(ofSprint, TicketRepository.Incomplete) == tickets;
    assert TicketRepository.CountIncomplete(tickets, SprintId) == 1;
  }

  /** The developer takes the ticket through ACCEPTED and IN_PROGRESS to DONE. */
  lemma WorkTicket()
    ensures TicketService.AcceptTicket(Planned(Active, map[TicketId := Task({DeveloperId}, New)]), TicketId, DeveloperId) ==
            Outcome(Success(Task({DeveloperId}, Accepted)), Planned(Active, map[TicketId := Task({DeveloperId}, Accepted)]))
    ensures TicketService.StartWork(Planned(Active, map[TicketId := Task({DeveloperId}, Accepted)]), TicketId, DeveloperId) ==
            Outcome(Success(Task({DeveloperId}, InProgress)), Planned(Active, map[TicketId := Task({DeveloperId}, InProgress)]))
    ensures TicketService.CompleteTicket(Planned(Active, map[TicketId := Task({DeveloperId}, InProgress)]), TicketId, DeveloperId) ==
            Outcome(Success(Task({DeveloperId}, Done)), Planned(Active, map[TicketId := Task({DeveloperId}, Done)]))
  {
  }

  /** With its ticket DONE the sprint closes, and then takes no more tickets. */
  lemma CloseSprint()
    ensures MilestoneService.CloseMilestone(Planned(Active, map[TicketId := Task({DeveloperId}, Done)]), SprintId, ManagerId) ==
            Outcome(Success(Sprint(Milestones.Closed)), Planned(Milestones.Closed, map[TicketId := Task({DeveloperId}, Done)]))
    ensures TicketService.CreateTicket(Planned(Milestones.Closed, map[TicketId := Task({DeveloperId}, Done)]),
                                       TicketId + 1, "Late", None, ProjectId, SprintId, ManagerId).result ==
            Failure(ClosedMilestone)
  {
  }
}
