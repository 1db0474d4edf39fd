# Project tracker — a verified model

The tracker manages users, projects and the work inside them. A user registers
with a name and an e-mail address that must be new, ignoring case. A registered
user creates a project and becomes its Manager. The Manager staffs the project
with a team lead, developers and testers, plans milestones
(OPEN → ACTIVE → CLOSED) and files tickets (NEW → ACCEPTED → IN_PROGRESS →
DONE). Team members report and work bug reports (NEW → FIXED → TESTED →
CLOSED). Every membership carries one of four roles, and a fixed table says
which of five capabilities each role has. Every operation returns a `Result`:
either the changed entity or the reason for the refusal.

The model has four layers:

- **Records and roles** (`Common`, `Text`, `Roles`, `Users`, `Projects`,
  `Milestones`, `Tickets`, `BugReports`). These are immutable values with
  their constructor checks (no blank names or titles, no milestone ending
  before it starts) and their "with…" updates.
- **Repositories** (`Repository`, `MembershipRepository`, `UserRepository`,
  `MilestoneRepository`, `TicketRepository`, `BugReportRepository`).
  - A keyed store is a `map` from id to entity. A scan returns the sub-map of
    matching entries.
  - Memberships are keyed by the pair (user, project).
  - The look-ups that pick an arbitrary match (`findFirst`, `findByEmail`,
    `findActiveByProjectId`) are methods.
- **Services** (`UserService`, `ProjectService`, `MilestoneService`,
  `TicketService`, `BugReportService`). Each operation is a function from a
  `Store.State` (the six stores) to an `Outcome`: the result plus the state
  left behind.
  - The guards run in the source's order, and every refusal has its own error
    case.
  - A refusal leaves the state unchanged.
  - Each operation has a lemma proving that it keeps `Store.Inv`. The
    invariant says:
    - every entity is stored under its own id;
    - records are valid;
    - e-mail addresses are unique ignoring case;
    - the Manager role is held exactly by each project's manager;
    - no project's manager is also its team lead, a developer or a tester
      (the roster operations refuse the manager as a candidate);
    - memberships refer to stored users and projects;
    - a project has at most one ACTIVE milestone;
    - references resolve;
    - every ticket of a CLOSED milestone is DONE.
- **The running application.**
  - `Services.Tracker` is a class whose six fields are the repositories shared
    by the services. Each of its methods runs the service's steps against
    those fields. It is proved to leave them as the service function says and
    to keep the invariant.
  - `Lifecycle` runs any sequence of service calls. It proves that the
    invariant holds throughout, that nothing is ever removed, and that no
    status moves backwards.
  - `SampleSession` follows the flow of the application's sample session,
    with its manager, first developer, project and first ticket, step by step
    on concrete values. It adds two refusals the sample session does not
    exercise: closing the sprint while its ticket is open, and filing a
    ticket into the closed sprint.

The model follows the code. Three of its quirks are proved as stated:

- Assigning a second team lead leaves the first one's TeamLead membership in
  place.
- Adding an existing tester succeeds again.
- Any user allowed to fix bugs may mark a bug fixed, whoever it is assigned to.

## Model

| member | source | states |
|---|---|---|
| Common.Result.OrElseThrow | src/main/java/org/lab/domain/common/Result.java:24-28 | on a Success, returns the wrapped value (the Failure case throws and is excluded) |
| Common.ExactlyOneOutcome | src/main/java/org/lab/domain/common/Result.java:16-22 | a result is a success or a failure, never both |
| Text.BlankIffNoVisibleChar | src/main/java/org/lab/domain/user/User.java:12-14 | a name is blank iff it has no non-whitespace character |
| Text.EqualsIgnoreCaseAt | src/main/java/org/lab/repository/UserRepository.java:13-15 | addresses are equal ignoring case iff they have the same length and agree position by position after folding case |
| Text.EqualsIgnoreCaseIsEquivalence | src/main/java/org/lab/repository/UserRepository.java:13-15 | equality ignoring case is reflexive, symmetric and transitive |
| Text.OrEmpty | src/main/java/org/lab/domain/project/Project.java:26 | a missing description becomes the empty string; a present one is kept |
| Roles.ManagerRow | src/main/java/org/lab/domain/user/Manager.java:10-33 | a Manager may manage tickets and nothing else |
| Roles.TeamLeadRow | src/main/java/org/lab/domain/user/TeamLead.java:10-33 | a TeamLead may do everything except test bugs |
| Roles.DeveloperRow | src/main/java/org/lab/domain/user/Developer.java:10-33 | a Developer may execute tickets, report bugs and fix bugs, and nothing else |
| Roles.TesterRow | src/main/java/org/lab/domain/user/Tester.java:10-33 | a Tester may report bugs and test bugs, and nothing else |
| Roles.ColumnsOfTheTable | src/main/java/org/lab/domain/user/Tester.java:10-33 | for each capability, exactly which roles grant it |
| Roles.SeparationOfDuties | src/main/java/org/lab/domain/user/Developer.java:25-33 | no role may both fix and test bugs; whoever executes tickets may fix bugs; whoever fixes bugs may report them |
| Users.Create | src/main/java/org/lab/domain/user/User.java:8-19 | succeeds iff the name is not blank (else BlankName); the user keeps the given id, name and address unchanged |
| Users.Of | src/main/java/org/lab/domain/user/ProjectMembership.java:14-16 | the membership binds exactly the given user, project and role, and is for that project |
| Users.IsForProjectOnlyReadsProject | src/main/java/org/lab/domain/user/ProjectMembership.java:18-20 | a membership is for a project iff its project id is that project, whatever its user and role |
| Projects.Create | src/main/java/org/lab/domain/project/Project.java:18-33 | succeeds iff the name is not blank; the project has the given manager, no lead, and an empty team, so it has no developer and its manager holds no other post |
| Projects.Project.WithTeamLead | src/main/java/org/lab/domain/project/Project.java:35-37 | the lead is replaced, and the developers are now the developer set plus the new lead; identity and other sets are unchanged |
| Projects.Project.WithDeveloper | src/main/java/org/lab/domain/project/Project.java:39-43 | the developer set grows by the user; the developers are the old ones plus the user |
| Projects.Project.WithTester | src/main/java/org/lab/domain/project/Project.java:45-49 | the tester set grows by the user; who is a developer is unchanged |
| Projects.Project.IsDeveloper | src/main/java/org/lab/domain/project/Project.java:51-53 | the team lead and every member of the developer set are developers; a developer outside the set is the team lead |
| Projects.RosterChangesKeepManagerOffTeam | src/main/java/org/lab/service/ProjectService.java:45-91 | assigning a lead, adding a developer or adding a tester leaves the manager off the team iff the candidate is not the manager (and, for a lead, the manager was in neither set) |
| Projects.WithTesterIdempotent | src/main/java/org/lab/domain/project/Project.java:45-49 | adding a tester who already is one leaves the project unchanged |
| Projects.ReplacedLeadIsNoLongerDeveloper | src/main/java/org/lab/domain/project/Project.java:35-37 | a replaced lead who is not in the developer set stops being a developer |
| Milestones.Create | src/main/java/org/lab/domain/project/Milestone.java:15-32 | succeeds iff the name is not blank and the start is not after the end; blank name is reported before the date order; the milestone is OPEN and takes tickets |
| Milestones.Milestone.Activate | src/main/java/org/lab/domain/project/Milestone.java:34-36 | only the status changes, to ACTIVE |
| Milestones.Milestone.Close | src/main/java/org/lab/domain/project/Milestone.java:38-40 | only the status changes, to CLOSED, after which it takes no tickets |
| Milestones.Milestone.CanAddTickets | src/main/java/org/lab/domain/project/Milestone.java:42-44 | a milestone takes tickets iff its status comes before CLOSED, the last of its lifecycle |
| Milestones.CanAddTicketsIffNotClosed | src/main/java/org/lab/domain/project/Milestone.java:42-44 | a milestone takes tickets iff it is OPEN or ACTIVE |
| Milestones.TransitionsMoveForward | src/main/java/org/lab/domain/project/Milestone.java:34-40 | activation from OPEN and closing from ACTIVE each advance one step; closing never moves back |
| Tickets.Create | src/main/java/org/lab/domain/project/Ticket.java:17-32 | succeeds iff the title is not blank; the ticket is NEW, unassigned, and keeps the given fields |
| Tickets.Ticket.WithAssignee | src/main/java/org/lab/domain/project/Ticket.java:34-38 | the assignees become the old ones plus the user; everything else unchanged |
| Tickets.Ticket.Accept | src/main/java/org/lab/domain/project/Ticket.java:40-42 | only the status changes, to ACCEPTED |
| Tickets.Ticket.StartWork | src/main/java/org/lab/domain/project/Ticket.java:44-46 | only the status changes, to IN_PROGRESS |
| Tickets.Ticket.Complete | src/main/java/org/lab/domain/project/Ticket.java:48-50 | only the status changes, to DONE, so the ticket is completed |
| Tickets.Ticket.IsAssignedTo | src/main/java/org/lab/domain/project/Ticket.java:52-54 | true iff the user is among the assignees, so never for a ticket without assignees |
| Tickets.Ticket.IsCompleted | src/main/java/org/lab/domain/project/Ticket.java:56-58 | true iff the status is DONE, the last of the lifecycle, beyond which no status ranks |
| Tickets.WithAssigneeIdempotent | src/main/java/org/lab/domain/project/Ticket.java:34-38 | assigning the same user twice equals assigning once; assigning a current assignee changes nothing |
| Tickets.TransitionsAdvanceOneStep | src/main/java/org/lab/domain/project/Ticket.java:40-50 | each transition from its expected status advances exactly one step |
| BugReports.Create | src/main/java/org/lab/domain/project/BugReport.java:18-36 | succeeds iff the title is not blank; the report is NEW, unassigned, filed by the reporter at the given time |
| BugReports.BugReport.WithAssignee | src/main/java/org/lab/domain/project/BugReport.java:38-40 | the assignee is replaced; origin and status unchanged |
| BugReports.BugReport.MarkFixed | src/main/java/org/lab/domain/project/BugReport.java:42-44 | only the status changes, to FIXED |
| BugReports.BugReport.MarkTested | src/main/java/org/lab/domain/project/BugReport.java:46-48 | only the status changes, to TESTED |
| BugReports.BugReport.Close | src/main/java/org/lab/domain/project/BugReport.java:50-52 | only the status changes, to CLOSED |
| BugReports.TransitionsAdvanceOneStep | src/main/java/org/lab/domain/project/BugReport.java:42-52 | each transition from its expected status advances exactly one step |
| Repository.FindById | src/main/java/org/lab/repository/InMemoryRepository.java:27-30 | present iff the id is stored, and then it is the stored entity |
| Repository.Save | src/main/java/org/lab/repository/InMemoryRepository.java:21-25 | upsert: the entity is found under its id afterwards, every other id is found as before, and the key set grows by that id |
| Repository.FindAll | src/main/java/org/lab/repository/InMemoryRepository.java:32-35 | exactly the stored entries whose value satisfies the predicate, and exactly such values |
| Repository.FindAllNoLarger | src/main/java/org/lab/repository/InMemoryRepository.java:32-35 | a scan never yields more entries than are stored |
| Repository.FindAllEmpty | src/main/java/org/lab/repository/InMemoryRepository.java:32-35 | when no stored value matches, the scan is empty |
| Repository.FindAllWitness | src/main/java/org/lab/repository/InMemoryRepository.java:32-35 | a non-empty scan exhibits a stored entry that matches |
| Repository.FindFirst | src/main/java/org/lab/repository/InMemoryRepository.java:37-39 | returns something iff some stored value matches, and then a stored matching value |
| Repository.GroupCount | src/main/java/org/lab/repository/TicketRepository.java:27-30 | only occurring keys appear, each with the number of entries that have that key (at least one) |
| Repository.GroupCountAt | src/main/java/org/lab/repository/TicketRepository.java:27-30 | the count of any key, zero when absent, is the number of entries with that key |
| Repository.GroupCountSum | src/main/java/org/lab/repository/TicketRepository.java:27-30 | summing counts over distinct keys counts each entry with one of those keys exactly once |
| Repository.GroupCountTotal | src/main/java/org/lab/repository/TicketRepository.java:27-30 | when every key is listed, the counts add up to the number of entries |
| MembershipRepository.Save | src/main/java/org/lab/repository/MembershipRepository.java:16-23 | afterwards the membership is found for its (user, project) pair; every other pair is found as before |
| MembershipRepository.Find | src/main/java/org/lab/repository/MembershipRepository.java:25-27 | present iff a membership is stored under the (user, project) pair, and then that stored membership |
| MembershipRepository.GetRole | src/main/java/org/lab/repository/MembershipRepository.java:25-31 | no role iff no membership for the pair; otherwise the membership's role |
| MembershipRepository.FindByProjectId | src/main/java/org/lab/repository/MembershipRepository.java:33-37 | exactly the stored memberships of the project |
| MembershipRepository.LaterSaveWins | src/main/java/org/lab/repository/MembershipRepository.java:16-23 | two saves for the same pair equal the later save alone, whose role is then found |
| UserRepository.FindByEmail | src/main/java/org/lab/repository/UserRepository.java:13-15 | finds a user iff some stored address equals the given one ignoring case, and then a stored such user |
| UserRepository.ExistsByEmail | src/main/java/org/lab/repository/UserRepository.java:17-19 | true iff some stored address equals the given one ignoring case |
| UserRepository.EmailTakenIgnoresCase | src/main/java/org/lab/repository/UserRepository.java:13-19 | addresses that differ only in case are taken together or not at all |
| MilestoneRepository.FindActiveByProjectId | src/main/java/org/lab/repository/MilestoneRepository.java:15-17 | finds a milestone iff the project has an ACTIVE one, and then an ACTIVE stored milestone of that project |
| MilestoneRepository.HasActiveMilestone | src/main/java/org/lab/repository/MilestoneRepository.java:19-21 | true iff some stored milestone of the project is ACTIVE |
| TicketRepository.FindByMilestoneId | src/main/java/org/lab/repository/TicketRepository.java:19-21 | exactly the stored tickets of the milestone |
| TicketRepository.CountIncomplete | src/main/java/org/lab/repository/TicketRepository.java:23-25 | exactly the number of the milestone's stored tickets that are not DONE; hence at most the milestone's ticket count, and zero iff every ticket of the milestone is DONE |
| TicketRepository.NoneIncompleteIffAllDone | src/main/java/org/lab/repository/TicketRepository.java:23-25 | the scan for non-DONE tickets is empty iff all the milestone's tickets are DONE |
| TicketRepository.GetStatusStats | src/main/java/org/lab/repository/TicketRepository.java:27-30 | a status appears iff some ticket of the milestone has it, with a count of at least one |
| TicketRepository.StatusStatsCount | src/main/java/org/lab/repository/TicketRepository.java:27-30 | the count for every status is the number of the milestone's tickets in it |
| TicketRepository.StatusStatsTotal | src/main/java/org/lab/repository/TicketRepository.java:27-30 | the four counts add up to the milestone's ticket count |
| BugReportRepository.ProjectBugs | src/main/java/org/lab/repository/BugReportRepository.java:18-21 | exactly the stored bugs of the project |
| BugReportRepository.GetStatusStats | src/main/java/org/lab/repository/BugReportRepository.java:18-21 | a status appears iff some bug of the project has it, with a count of at least one |
| BugReportRepository.StatusStatsCount | src/main/java/org/lab/repository/BugReportRepository.java:18-21 | the count for every status is the number of the project's bugs in it |
| BugReportRepository.StatusStatsTotal | src/main/java/org/lab/repository/BugReportRepository.java:18-21 | the four counts add up to the project's bug count |
| Store.Empty | src/main/java/org/lab/repository/InMemoryRepository.java:14 | the empty stores satisfy the invariant |
| Store.ManagerRoleIsProjectManager | src/main/java/org/lab/service/ProjectService.java:31-43 | under the invariant, holding the Manager role in a project means being its manager |
| Store.IsManager | src/main/java/org/lab/service/MilestoneService.java:80-83 | holding the Manager role needs a stored membership for the pair, and grants managing tickets but not executing them |
| UserService.Register | src/main/java/org/lab/service/UserService.java:18-29 | succeeds iff the address is not taken ignoring case and the name is not blank; the duplicate is reported first; a refusal stores nothing; a success stores exactly the new user |
| UserService.FindById | src/main/java/org/lab/service/UserService.java:31-33 | present iff the user is stored, and then that user |
| UserService.RegisterKeepsInv | src/main/java/org/lab/service/UserService.java:18-29 | registration keeps the invariant, including unique addresses ignoring case |
| UserService.SecondRegistrationRefused | src/main/java/org/lab/service/UserService.java:18-22 | after a registration, the same address in any case is refused as a duplicate |
| UserService.BlankNameLeavesAddressFree | src/main/java/org/lab/service/UserService.java:18-29 | a blank-name refusal stores nothing, so the address can then be registered |
| ProjectService.Grant | src/main/java/org/lab/service/ProjectService.java:31-43 | afterwards the user holds the role in the project; every other (user, project) keeps its role |
| ProjectService.CreateProject | src/main/java/org/lab/service/ProjectService.java:31-43 | succeeds iff the creator is registered and the name is not blank; on success the project is stored and the creator becomes its Manager; a refusal stores nothing |
| ProjectService.ManagerAccess | src/main/java/org/lab/service/ProjectService.java:97-113 | succeeds iff the project exists and the actor is its Manager; the missing project is reported first |
| ProjectService.AssignTeamLead | src/main/java/org/lab/service/ProjectService.java:45-58 | succeeds iff access is granted, the candidate is registered and is not the manager; the lead is replaced and the candidate becomes TeamLead; each refusal has its own reason and stores nothing |
| ProjectService.AddDeveloper | src/main/java/org/lab/service/ProjectService.java:60-76 | as for the lead, and additionally refuses a user already in the developer set |
| ProjectService.AddTester | src/main/java/org/lab/service/ProjectService.java:78-91 | succeeds iff access is granted and the candidate is registered and is not the manager; an existing tester is not refused |
| ProjectService.GetProjectMembers | src/main/java/org/lab/service/ProjectService.java:93-95 | exactly the stored memberships of the project |
| ProjectService.CreateProjectKeepsInv | src/main/java/org/lab/service/ProjectService.java:31-43 | creating a project keeps the invariant |
| ProjectService.AssignTeamLeadKeepsInv | src/main/java/org/lab/service/ProjectService.java:45-58 | assigning a lead keeps the invariant |
| ProjectService.AddDeveloperKeepsInv | src/main/java/org/lab/service/ProjectService.java:60-76 | adding a developer keeps the invariant |
| ProjectService.AddTesterKeepsInv | src/main/java/org/lab/service/ProjectService.java:78-91 | adding a tester keeps the invariant |
| ProjectService.RosterChangesKeepManager | src/main/java/org/lab/service/ProjectService.java:45-91 | assigning a lead, adding a developer and adding a tester each leave the manager's Manager role in place and give it to no candidate other than the manager |
| ProjectService.RosterOutcomeKeepsManager | src/main/java/org/lab/service/ProjectService.java:45-91 | proof helper for RosterChangesKeepManager: a refusal, or a grant of a non-Manager role to someone other than the manager, leaves the Manager role with the manager alone |
| ProjectService.ReplacedLeadKeepsMembership | src/main/java/org/lab/service/ProjectService.java:45-58 | after a second lead is assigned, the project names the new lead while the old one still holds TeamLead |
| ProjectService.AddTesterTwice | src/main/java/org/lab/service/ProjectService.java:78-91 | adding the same tester twice succeeds both times and the tester set does not change the second time |
| ProjectService.AddDeveloperTwiceRefused | src/main/java/org/lab/service/ProjectService.java:60-76 | adding the same developer twice is refused the second time as AlreadyDeveloper |
| ProjectService.ManagerIsMember | src/main/java/org/lab/service/ProjectService.java:31-43 | the manager of every stored project is among its members with the Manager role |
| MilestoneService.CreateMilestone | src/main/java/org/lab/service/MilestoneService.java:35-49 | succeeds iff the actor is Manager, the project exists, the name is not blank and the dates are ordered; checked in that order; success stores an OPEN milestone |
| MilestoneService.MilestoneAccess | src/main/java/org/lab/service/MilestoneService.java:85-98 | succeeds iff the milestone exists and the actor is Manager of its project; a missing milestone is reported first |
| MilestoneService.ActivateMilestone | src/main/java/org/lab/service/MilestoneService.java:51-63 | succeeds iff access is granted, the project has no ACTIVE milestone and the milestone is OPEN, the project check coming first; success stores it ACTIVE |
| MilestoneService.CloseMilestone | src/main/java/org/lab/service/MilestoneService.java:65-78 | succeeds iff access is granted, the milestone is ACTIVE and all its tickets are DONE; otherwise reports the number of the milestone's tickets that are not DONE; success stores it CLOSED |
| MilestoneService.CreateMilestoneKeepsInv | src/main/java/org/lab/service/MilestoneService.java:35-49 | creating a milestone keeps the invariant |
| MilestoneService.ActivateMilestoneKeepsInv | src/main/java/org/lab/service/MilestoneService.java:51-63 | activation keeps at most one ACTIVE milestone per project |
| MilestoneService.CloseMilestoneKeepsInv | src/main/java/org/lab/service/MilestoneService.java:65-78 | closing keeps every ticket of a CLOSED milestone DONE |
| MilestoneService.CreateMilestoneNeverMissesProject | src/main/java/org/lab/service/MilestoneService.java:35-43 | under the invariant the ProjectNotFound refusal is unreachable, because the Manager check comes first |
| MilestoneService.ReactivationReportsActiveMilestone | src/main/java/org/lab/service/MilestoneService.java:51-63 | activating an ACTIVE milestone reports ActiveMilestoneExists, not the wrong status |
| MilestoneService.FailedCloseLeavesActive | src/main/java/org/lab/service/MilestoneService.java:65-78 | a refused close leaves an ACTIVE milestone ACTIVE |
| TicketService.Transition.ApplyTo | src/main/java/org/lab/domain/project/Ticket.java:40-50 | each transition changes only the status, one step past the status it expects |
| TicketService.CreateTicket | src/main/java/org/lab/service/TicketService.java:30-49 | succeeds iff the actor may manage tickets, the milestone is one of the project's and is not CLOSED, and the title is not blank; checked in that order, each refusal with its own error (a blank title gives BlankTitle); success stores a NEW ticket |
| TicketService.AssignTicket | src/main/java/org/lab/service/TicketService.java:51-66 | succeeds iff the ticket exists, the actor may manage tickets and the assignee is a developer (or the lead) of the project; success adds the assignee |
| TicketService.UpdateTicketStatus | src/main/java/org/lab/service/TicketService.java:84-102 | succeeds iff the ticket exists, the actor may execute tickets, is an assignee, and the status is the expected one, each refusal with its own reason; success applies the transition |
| TicketService.AcceptTicket | src/main/java/org/lab/service/TicketService.java:68-70 | a success takes a NEW ticket to ACCEPTED |
| TicketService.StartWork | src/main/java/org/lab/service/TicketService.java:72-74 | a success takes an ACCEPTED ticket to IN_PROGRESS |
| TicketService.CompleteTicket | src/main/java/org/lab/service/TicketService.java:76-78 | a success takes an IN_PROGRESS ticket to DONE |
| TicketService.GetTicketStats | src/main/java/org/lab/service/TicketService.java:80-82 | the count for each status is the number of the milestone's tickets in it |
| TicketService.CreateTicketKeepsInv | src/main/java/org/lab/service/TicketService.java:30-49 | creating a ticket keeps the invariant (no ticket enters a CLOSED milestone) |
| TicketService.AssignTicketKeepsInv | src/main/java/org/lab/service/TicketService.java:51-66 | assigning a ticket keeps the invariant |
| TicketService.UpdateTicketStatusKeepsInv | src/main/java/org/lab/service/TicketService.java:84-102 | a status change keeps the invariant |
| TicketService.StatusNeverRegresses | src/main/java/org/lab/service/TicketService.java:84-102 | a ticket's status never moves back, and a DONE ticket stays DONE |
| BugReportService.CreateBugReport | src/main/java/org/lab/service/BugReportService.java:27-44 | succeeds iff the project exists, the actor may report bugs and the title is not blank; checked in that order, each refusal with its own error (a blank title gives BlankTitle); success stores a NEW report by the actor |
| BugReportService.AssignBug | src/main/java/org/lab/service/BugReportService.java:46-63 | succeeds iff the bug exists, the actor may manage tickets and the assignee may fix bugs; success replaces the assignee |
| BugReportService.MarkFixed | src/main/java/org/lab/service/BugReportService.java:65-81 | succeeds iff the bug exists, the actor may fix bugs and the bug is NEW; success stores it FIXED |
| BugReportService.MarkTested | src/main/java/org/lab/service/BugReportService.java:83-97 | succeeds iff the bug exists, the actor may test bugs and the bug is FIXED; success stores it TESTED |
| BugReportService.CloseBug | src/main/java/org/lab/service/BugReportService.java:99-115 | succeeds iff the bug exists, the actor may test bugs and the bug is TESTED; success stores it CLOSED |
| BugReportService.GetBugStats | src/main/java/org/lab/service/BugReportService.java:117-119 | the count for each status is the number of the project's bugs in it |
| BugReportService.CreateBugReportKeepsInv | src/main/java/org/lab/service/BugReportService.java:27-44 | filing a report keeps the invariant |
| BugReportService.AssignBugKeepsInv | src/main/java/org/lab/service/BugReportService.java:46-63 | assigning a bug keeps the invariant |
| BugReportService.MarkFixedKeepsInv | src/main/java/org/lab/service/BugReportService.java:65-81 | marking fixed keeps the invariant |
| BugReportService.MarkTestedKeepsInv | src/main/java/org/lab/service/BugReportService.java:83-97 | marking tested keeps the invariant |
| BugReportService.CloseBugKeepsInv | src/main/java/org/lab/service/BugReportService.java:99-115 | closing keeps the invariant |
| BugReportService.MarkFixedIgnoresAssignee | src/main/java/org/lab/service/BugReportService.java:65-81 | a user allowed to fix bugs can mark a NEW bug fixed even when it is assigned to someone else |
| BugReportService.FixerIsNotTester | src/main/java/org/lab/service/BugReportService.java:65-97 | the user who marked a bug fixed is refused when marking it tested |
| BugReportService.StatusNeverRegresses | src/main/java/org/lab/service/BugReportService.java:46-115 | assignment keeps a bug's status and no operation moves it back |
| BugReportService.ClosedIsTerminal | src/main/java/org/lab/service/BugReportService.java:46-115 | a CLOSED bug stays CLOSED, and the transitions leave the state unchanged |
| Lifecycle.AdvancesTransitive | src/main/java/org/lab/Demo.java:40-48 | proof helper for RunAdvances: extending a state is transitive |
| Lifecycle.ApplyKeepsInv | src/main/java/org/lab/Demo.java:83-167 | every service call keeps the invariant |
| Lifecycle.ApplyAdvances | src/main/java/org/lab/Demo.java:83-167 | every service call keeps all stored entities and memberships, keeps every project's manager, and moves no status back |
| Lifecycle.RunKeepsInv | src/main/java/org/lab/Demo.java:40-48 | any sequence of calls keeps the invariant |
| Lifecycle.RunAdvances | src/main/java/org/lab/Demo.java:40-48 | any sequence of calls extends the state it starts from |
| Lifecycle.TerminalStatusesStay | src/main/java/org/lab/Demo.java:40-48 | CLOSED milestones, DONE tickets and CLOSED bugs stay so, and every project keeps its manager, through any sequence of calls |
| Lifecycle.ReachableStates | src/main/java/org/lab/Demo.java:51-66 | every state reached from empty repositories has the invariant, at most one ACTIVE milestone per project, each manager holding the Manager role, and no manager being lead, developer or tester of their own project |
| Services.Tracker.constructor | src/main/java/org/lab/Demo.java:51-66 | the repositories start empty and satisfy the invariant |
| Services.Tracker.Register | src/main/java/org/lab/service/UserService.java:18-29 | given an unused id, result and new stores are those of UserService.Register; invariant kept |
| Services.Tracker.FindUser | src/main/java/org/lab/service/UserService.java:31-33 | present iff the user is stored |
| Services.Tracker.CreateProject | src/main/java/org/lab/service/ProjectService.java:31-43 | given an unused id, result and new stores are those of ProjectService.CreateProject; invariant kept |
| Services.Tracker.WithManagerAccess | src/main/java/org/lab/service/ProjectService.java:97-113 | the outcome of ProjectService.ManagerAccess on the current stores |
| Services.Tracker.AssignTeamLead | src/main/java/org/lab/service/ProjectService.java:45-58 | result and new stores are those of ProjectService.AssignTeamLead; invariant kept |
| Services.Tracker.AddDeveloper | src/main/java/org/lab/service/ProjectService.java:60-76 | result and new stores are those of ProjectService.AddDeveloper; invariant kept |
| Services.Tracker.AddTester | src/main/java/org/lab/service/ProjectService.java:78-91 | result and new stores are those of ProjectService.AddTester; invariant kept |
| Services.Tracker.GetProjectMembers | src/main/java/org/lab/service/ProjectService.java:93-95 | exactly the project's stored memberships |
| Services.Tracker.IsManager | src/main/java/org/lab/service/MilestoneService.java:80-83 | true iff the user holds the Manager role in the project |
| Services.Tracker.CreateMilestone | src/main/java/org/lab/service/MilestoneService.java:35-49 | given an unused id, result and new stores are those of MilestoneService.CreateMilestone; invariant kept |
| Services.Tracker.WithMilestone | src/main/java/org/lab/service/MilestoneService.java:85-98 | the outcome of MilestoneService.MilestoneAccess on the current stores |
| Services.Tracker.ActivateMilestone | src/main/java/org/lab/service/MilestoneService.java:51-63 | result and new stores are those of MilestoneService.ActivateMilestone; invariant kept |
| Services.Tracker.CloseMilestone | src/main/java/org/lab/service/MilestoneService.java:65-78 | result and new stores are those of MilestoneService.CloseMilestone; invariant kept |
| Services.Tracker.CreateTicket | src/main/java/org/lab/service/TicketService.java:30-49 | given an unused ticket id, result and new stores are those of TicketService.CreateTicket; invariant kept |
| Services.Tracker.AssignTicket | src/main/java/org/lab/service/TicketService.java:51-66 | result and new stores are those of TicketService.AssignTicket; invariant kept |
| Services.Tracker.UpdateTicketStatus | src/main/java/org/lab/service/TicketService.java:84-102 | result and new stores are those of TicketService.UpdateTicketStatus; invariant kept |
| Services.Tracker.AcceptTicket | src/main/java/org/lab/service/TicketService.java:68-70 | result and new stores are those of TicketService.AcceptTicket; invariant kept |
| Services.Tracker.StartWork | src/main/java/org/lab/service/TicketService.java:72-74 | result and new stores are those of TicketService.StartWork; invariant kept |
| Services.Tracker.CompleteTicket | src/main/java/org/lab/service/TicketService.java:76-78 | result and new stores are those of TicketService.CompleteTicket; invariant kept |
| Services.Tracker.GetTicketStats | src/main/java/org/lab/service/TicketService.java:80-82 | each status count is the number of the milestone's tickets in it |
| Services.Tracker.CreateBugReport | src/main/java/org/lab/service/BugReportService.java:27-44 | given an unused report id, result and new stores are those of BugReportService.CreateBugReport; invariant kept |
| Services.Tracker.AssignBug | src/main/java/org/lab/service/BugReportService.java:46-63 | result and new stores are those of BugReportService.AssignBug; invariant kept |
| Services.Tracker.MarkFixed | src/main/java/org/lab/service/BugReportService.java:65-81 | result and new stores are those of BugReportService.MarkFixed; invariant kept |
| Services.Tracker.MarkTested | src/main/java/org/lab/service/BugReportService.java:83-97 | result and new stores are those of BugReportService.MarkTested; invariant kept |
| Services.Tracker.CloseBug | src/main/java/org/lab/service/BugReportService.java:99-115 | result and new stores are those of BugReportService.CloseBug; invariant kept |
| Services.Tracker.GetBugStats | src/main/java/org/lab/service/BugReportService.java:117-119 | each status count is the number of the project's bugs in it |
| SampleSession.RegisterTeam | src/main/java/org/lab/Demo.java:68-77 | the manager and the first developer, with the sample session's names and addresses, both register successfully |
| SampleSession.FoundProject | src/main/java/org/lab/Demo.java:80-89 | the manager creates the project and becomes its Manager |
| SampleSession.StaffProject | src/main/java/org/lab/Demo.java:92 | the manager adds the developer, who becomes a Developer member |
| SampleSession.OpenSprint | src/main/java/org/lab/Demo.java:108-117 | the sprint is created OPEN and then activated |
| SampleSession.FileTicket | src/main/java/org/lab/Demo.java:119-129 | the ticket is filed NEW and assigned to the developer |
| SampleSession.EarlyCloseRefused | src/main/java/org/lab/service/MilestoneService.java:65-78 | (not a step of the sample session) closing the sprint with the ticket still NEW is refused, reporting one incomplete ticket |
| SampleSession.WorkTicket | src/main/java/org/lab/Demo.java:215-219 | the developer takes the ticket through ACCEPTED and IN_PROGRESS to DONE |
| SampleSession.CloseSprint | src/main/java/org/lab/Demo.java:139 | with its ticket DONE the sprint closes; afterwards (not a step of the sample session) it refuses a new ticket |

## Left out

- Concurrency. The repositories are concurrent hash maps and the services do
  not lock. The races between a check and a save (two registrations with the
  same address, two activations) are not modelled. Every call runs alone.
- Generated ids and clocks. `UUID.randomUUID()` and `LocalDateTime.now()`
  become parameters. The five creating methods of `Services.Tracker` require
  an id not yet in use. The service functions themselves do not: given a
  reused id they overwrite the stored entity. `Lifecycle.Run` skips a
  creating call whose id is already taken.
- Dates. A `LocalDate` is a day number (`Day`), compared as an integer.
- Error messages. The error strings are cases of the `Error` datatype. Their
  wording is not modelled, except for the count carried by
  `IncompleteTickets`.
- Null arguments. The `Objects.requireNonNull` checks and the exceptions
  behind them have no counterpart: every value is present. An optional
  description is an `Option`.
- Case folding. `equalsIgnoreCase` is modelled for the Latin letters A–Z only,
  not for the rest of Unicode.
- Whitespace. `Character.isWhitespace` is modelled by its fixed character set;
  `String.isBlank` is modelled by that set.
- Role names. `displayName` is not modelled; the roles are a datatype and the
  capability methods are one table.
- Result objects. `save` returning the entity it stored is not modelled.
- Order. Lists returned by scans are modelled as unordered sub-maps.
  - The entity `findFirst` returns is any match.
  - The stats maps contain only the statuses that occur, as `groupingBy`
    does.
- Types without behaviour. `Role.java`, `Repository.java` and
  `ProjectRepository.java` only declare types. The status enums
  (`MilestoneStatus`, `TicketStatus`, `BugStatus`) are declared in files
  outside the modelled ones; each is modelled as a datatype with the same
  constants.
- Demo output. The printing, the report assembled with `StructuredTaskScope`
  and the emoji listing are not modelled.
- SampleSession: follows the sample session with its manager, first
  developer, sprint and first ticket only, using the session's own names,
  addresses, titles and descriptions. The team lead, the second developer,
  the tester, the other two tickets and the bug reports are left out to keep
  each proof small.
- Services.Tracker: one class holds the six shared repositories instead of
  five service objects holding references to them. Every state-changing
  method requires the store invariant. Aliasing between services is
  therefore not modelled.
- Services.Tracker.Register, Services.Tracker.CreateProject,
  Services.Tracker.CreateMilestone, Services.Tracker.CreateTicket,
  Services.Tracker.CreateBugReport: these require a fresh id, which the source
  obtains from a random UUID.
