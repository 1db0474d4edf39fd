/** Any sequence of service calls, executed one after another from any state
    that satisfies the invariant: the invariant holds throughout, nothing is
    ever removed, and no milestone, ticket or bug status moves backwards. */
module Lifecycle {

  import opened Common
  import opened Roles
  import opened Store
  import Milestones
  import Tickets
  import BugReports
  import UserService
  import ProjectService
  import MilestoneService
  import TicketService
  import BugReportService

  /** One call of a state-changing service operation, with its arguments. */
  datatype Op =
    | Register(userId: Uuid, name: string, email: string)
    | CreateProject(projectId: Uuid, name: string, description: Option<string>, creatorId: Uuid)
    | AssignTeamLead(projectId: Uuid, candidateId: Uuid, actorId: Uuid)
    | AddDeveloper(projectId: Uuid, candidateId: Uuid, actorId: Uuid)
    | AddTester(projectId: Uuid, candidateId: Uuid, actorId: Uuid)
    | CreateMilestone(milestoneId: Uuid, name: string, projectId: Uuid, startDate: Day, endDate: Day, actorId: Uuid)
    | ActivateMilestone(milestoneId: Uuid, actorId: Uuid)
    | CloseMilestone(milestoneId: Uuid, actorId: Uuid)
    | CreateTicket(ticketId: Uuid, title: string, description: Option<string>, projectId: Uuid,
                   milestoneId: Uuid, actorId: Uuid)
    | AssignTicket(ticketId: Uuid, candidateId: Uuid, actorId: Uuid)
    | ChangeTicketStatus(ticketId: Uuid, actorId: Uuid, action: TicketService.Transition)
    | CreateBugReport(bugId: Uuid, title: string, description: Option<string>, projectId: Uuid,
                      actorId: Uuid, createdAt: Timestamp)
    | AssignBug(bugId: Uuid, candidateId: Uuid, actorId: Uuid)
    | MarkFixed(bugId: Uuid, actorId: Uuid)
    | MarkTested(bugId: Uuid, actorId: Uuid)
    | CloseBug(bugId: Uuid, actorId: Uuid)

  /** A creating call carries an id that no stored entity of its kind has,
      as a freshly generated UUID would. */
  predicate Fresh(s: State, op: Op) {
    match op
    case Register(id, _, _) => id !in s.users
    case CreateProject(id, _, _, _) => id !in s.projects
    case CreateMilestone(id, _, _, _, _, _) => id !in s.milestones
    case CreateTicket(id, _, _, _, _, _) => id !in s.tickets
    case CreateBugReport(id, _, _, _, _, _) => id !in s.bugs
    case _ => true
  }

  /** The state a call leaves behind. */
  function Apply(s: State, op: Op): State {
    match op
    case Register(id, name, email) => UserService.Register(s, id, name, email).after
    case CreateProject(id, name, description, creator) =>
      ProjectService.CreateProject(s, id, name, description, creator).after
    case AssignTeamLead(p, u, actor) => ProjectService.AssignTeamLead(s, p, u, actor).after
    case AddDeveloper(p, u, actor) => ProjectService.AddDeveloper(s, p, u, actor).after
    case AddTester(p, u, actor) => ProjectService.AddTester(s, p, u, actor).after
    case CreateMilestone(id, name, p, start, end, actor) =>
      MilestoneService.CreateMilestone(s, id, name, p, start, end, actor).after
    case ActivateMilestone(m, actor) => MilestoneService.ActivateMilestone(s, m, actor).after
    case CloseMilestone(m, actor) => MilestoneService.CloseMilestone(s, m, actor).after
    case CreateTicket(id, title, description, p, m, actor) =>
      TicketService.CreateTicket(s, id, title, description, p, m, actor).after
    case AssignTicket(t, u, actor) => TicketService.AssignTicket(s, t, u, actor).after
    case ChangeTicketStatus(t, actor, action) => TicketService.UpdateTicketStatus(s, t, actor, action).after
    case CreateBugReport(id, title, description, p, actor, at) =>
      BugReportService.CreateBugReport(s, id, title, description, p, actor, at).after
    case AssignBug(b, u, actor) => BugReportService.AssignBug(s, b, u, actor).after
    case MarkFixed(b, actor) => BugReportService.MarkFixed(s, b, actor).after
    case MarkTested(b, actor) => BugReportService.MarkTested(s, b, actor).after
    case CloseBug(b, actor) => BugReportService.CloseBug(s, b, actor).after
  }

  /** Executes the calls in order; a creating call whose id is already in use
      is skipped, as it cannot arise with generated ids. */
  function Run(s: State, ops: seq<Op>): State
    decreases |ops|
  {
    if ops == [] then s
    else Run(if Fresh(s, ops[0]) then Apply(s, ops[0]) else s, ops[1..])
  }

  /** `t` extends `s`: every stored entity is still stored, memberships are
      never removed, every project keeps its manager, and every status is at
      least as far along. */
  ghost predicate Advances(s: State, t: State) {
    s.users.Keys <= t.users.Keys && s.memberships.Keys <= t.memberships.Keys &&
    (forall k :: k in s.projects ==> k in t.projects && t.projects[k].managerId == s.projects[k].managerId) &&
    (forall k :: k in s.milestones ==>
       k in t.milestones && Milestones.Rank(s.milestones[k].status) <= Milestones.Rank(t.milestones[k].status)) &&
    (forall k :: k in s.tickets ==>
       k in t.tickets && Tickets.Rank(s.tickets[k].status) <= Tickets.Rank(t.tickets[k].status)) &&
    (forall k :: k in s.bugs ==>
       k in t.bugs && BugReports.Rank(s.bugs[k].status) <= BugReports.Rank(t.bugs[k].status))
  }

  lemma AdvancesTransitive(s: State, t: State, u: State)
    requires Advances(s, t) && Advances(t, u)
    ensures Advances(s, u)
  {
  }

  /** Every call keeps the invariant. */
  lemma ApplyKeepsInv(s: State, op: Op)
    requires Inv(s) && Fresh(s, op)
    ensures Inv(Apply(s, op))
  {
    match op
    case Register(id, name, email) => UserService.RegisterKeepsInv(s, id, name, email);
    case CreateProject(id, name, description, creator) =>
      ProjectService.CreateProjectKeepsInv(s, id, name, description, creator);
    case AssignTeamLead(p, u, actor) => ProjectService.AssignTeamLeadKeepsInv(s, p, u, actor);
    case AddDeveloper(p, u, actor) => ProjectService.AddDeveloperKeepsInv(s, p, u, actor);
    case AddTester(p, u, actor) => ProjectService.AddTesterKeepsInv(s, p, u, actor);
    case CreateMilestone(id, name, p, start, end, actor) =>
      MilestoneService.CreateMilestoneKeepsInv(s, id, name, p, start, end, actor);
    case ActivateMilestone(m, actor) => MilestoneService.ActivateMilestoneKeepsInv(s, m, actor);
    case CloseMilestone(m, actor) => MilestoneService.CloseMilestoneKeepsInv(s, m, actor);
    case CreateTicket(id, title, description, p, m, actor) =>
      TicketService.CreateTicketKeepsInv(s, id, title, description, p, m, actor);
    case AssignTicket(t, u, actor) => TicketService.AssignTicketKeepsInv(s, t, u, actor);
    case ChangeTicketStatus(t, actor, action) => TicketService.UpdateTicketStatusKeepsInv(s, t, actor, action);
    case CreateBugReport(id, title, description, p, actor, at) =>
      BugReportService.CreateBugReportKeepsInv(s, id, title, description, p, actor, at);
    case AssignBug(b, u, actor) => BugReportService.AssignBugKeepsInv(s, b, u, actor);
    case MarkFixed(b, actor) => BugReportService.MarkFixedKeepsInv(s, b, actor);
    case MarkTested(b, actor) => BugReportService.MarkTestedKeepsInv(s, b, actor);
    case CloseBug(b, actor) => BugReportService.CloseBugKeepsInv(s, b, actor);
  }

  /** Every call extends the state. */
  lemma ApplyAdvances(s: State, op: Op)
    requires KeysMatch(s) && Fresh(s, op)
    ensures Advances(s, Apply(s, op))
  {
    match op
    case Register(_, _, _) => RosterCallAdvances(s, op);
    case CreateProject(_, _, _, _) => RosterCallAdvances(s, op);
    case AssignTeamLead(_, _, _) => RosterCallAdvances(s, op);
    case AddDeveloper(_, _, _) => RosterCallAdvances(s, op);
    case AddTester(_, _, _) => RosterCallAdvances(s, op);
    case CreateMilestone(_, _, _, _, _, _) => MilestoneCallAdvances(s, op);
    case ActivateMilestone(_, _) => MilestoneCallAdvances(s, op);
    case CloseMilestone(_, _) => MilestoneCallAdvances(s, op);
    case CreateTicket(_, _, _, _, _, _) => TicketCallAdvances(s, op);
    case AssignTicket(_, _, _) => TicketCallAdvances(s, op);
    case ChangeTicketStatus(_, _, _) => TicketCallAdvances(s, op);
    case CreateBugReport(_, _, _, _, _, _) => BugCallAdvances(s, op);
    case AssignBug(_, _, _) => BugCallAdvances(s, op);
    case MarkFixed(_, _) => BugCallAdvances(s, op);
    case MarkTested(_, _) => BugCallAdvances(s, op);
    case CloseBug(_, _) => BugCallAdvances(s, op);
  }

  lemma RosterCallAdvances(s: State, op: Op)
    requires KeysMatch(s) && Fresh(s, op)
    requires op.Register? || op.CreateProject? || op.AssignTeamLead? || op.AddDeveloper? || op.AddTester?
    ensures Advances(s, Apply(s, op))
  {
    match op
    case Register(id, name, email) => RegisterAdvances(s, id, name, email);
    case CreateProject(id, name, description, creator) => CreateProjectAdvances(s, id, name, description, creator);
    case AssignTeamLead(p, u, actor) => AssignTeamLeadAdvances(s, p, u, actor);
    case AddDeveloper(p, u, actor) => AddDeveloperAdvances(s, p, u, actor);
    case AddTester(p, u, actor) => AddTesterAdvances(s, p, u, actor);
  }

  lemma RegisterAdvances(s: State, id: Uuid, name: string, email: string)
    ensures Advances(s, UserService.Register(s, id, name, email).after)
  {
    WorkflowUntouchedAdvances(s, UserService.Register(s, id, name, email).after);
  }

  lemma CreateProjectAdvances(s: State, id: Uuid, name: string, description: Option<string>, creator: Uuid)
    requires id !in s.projects
    ensures Advances(s, ProjectService.CreateProject(s, id, name, description, creator).after)
  {
    WorkflowUntouchedAdvances(s, ProjectService.CreateProject(s, id, name, description, creator).after);
  }

  lemma AssignTeamLeadAdvances(s: State, p: Uuid, u: Uuid, actor: Uuid)
    requires KeysMatch(s)
    ensures Advances(s, ProjectService.AssignTeamLead(s, p, u, actor).after)
  {
    var o := ProjectService.AssignTeamLead(s, p, u, actor);
    if o.result.Success? {
      assert s.projects[p].id == p;
    }
    WorkflowUntouchedAdvances(s, o.after);
  }

  lemma AddDeveloperAdvances(s: State, p: Uuid, u: Uuid, actor: Uuid)
    requires KeysMatch(s)
    ensures Advances(s, ProjectService.AddDeveloper(s, p, u, actor).after)
  {
    var o := ProjectService.AddDeveloper(s, p, u, actor);
    if o.result.Success? {
      assert s.projects[p].id == p;
    }
    WorkflowUntouchedAdvances(s, o.after);
  }

  lemma AddTesterAdvances(s: State, p: Uuid, u: Uuid, actor: Uuid)
    requires KeysMatch(s)
    ensures Advances(s, ProjectService.AddTester(s, p, u, actor).after)
  {
    var o := ProjectService.AddTester(s, p, u, actor);
    if o.result.Success? {
      assert s.projects[p].id == p;
    }
    WorkflowUntouchedAdvances(s, o.after);
  }

  /** A call that only adds users, projects and memberships, and keeps every
      project's manager, extends the state. */
  lemma WorkflowUntouchedAdvances(s: State, t: State)
    requires s.users.Keys <= t.users.Keys
    requires forall k :: k in s.projects ==> k in t.projects && t.projects[k].managerId == s.projects[k].managerId
    requires s.memberships.Keys <= t.memberships.Keys
    requires t.milestones == s.milestones && t.tickets == s.tickets && t.bugs == s.bugs
    ensures Advances(s, t)
  {
  }

  lemma MilestoneCallAdvances(s: State, op: Op)
    requires KeysMatch(s) && Fresh(s, op)
    requires op.CreateMilestone? || op.ActivateMilestone? || op.CloseMilestone?
    ensures Advances(s, Apply(s, op))
  {
    var o := match op
      case CreateMilestone(id, name, p, start, end, actor) =>
        MilestoneService.CreateMilestone(s, id, name, p, start, end, actor)
      case ActivateMilestone(m, actor) => MilestoneService.ActivateMilestone(s, m, actor)
      case CloseMilestone(m, actor) => MilestoneService.CloseMilestone(s, m, actor);
    assert Apply(s, op) == o.after;
    if o.result.Success? {
      PutMilestoneAdvances(s, o.result.value);
    }
  }

  /** Storing a milestone extends the state unless it moves a stored one back. */
  lemma PutMilestoneAdvances(s: State, m: Milestones.Milestone)
    requires m.id in s.milestones ==> Milestones.Rank(s.milestones[m.id].status) <= Milestones.Rank(m.status)
    ensures Advances(s, s.(milestones := s.milestones[m.id := m]))
  {
  }

  lemma TicketCallAdvances(s: State, op: Op)
    requires KeysMatch(s) && Fresh(s, op)
    requires op.CreateTicket? || op.AssignTicket? || op.ChangeTicketStatus?
    ensures Advances(s, Apply(s, op))
  {
    if op.ChangeTicketStatus? && op.ticketId in s.tickets {
      TicketService.StatusNeverRegresses(s, op.ticketId, op.actorId, op.action);
    }
  }

  lemma BugCallAdvances(s: State, op: Op)
    requires KeysMatch(s) && Fresh(s, op)
    requires op.CreateBugReport? || op.AssignBug? || op.MarkFixed? || op.MarkTested? || op.CloseBug?
    ensures Advances(s, Apply(s, op))
  {
    match op
    case CreateBugReport(id, title, description, p, actor, at) =>
      BugOutcomeAdvances(s, BugReportService.CreateBugReport(s, id, title, description, p, actor, at));
    case AssignBug(b, u, actor) => BugOutcomeAdvances(s, BugReportService.AssignBug(s, b, u, actor));
    case MarkFixed(b, actor) => BugOutcomeAdvances(s, BugReportService.MarkFixed(s, b, actor));
    case MarkTested(b, actor) => BugOutcomeAdvances(s, BugReportService.MarkTested(s, b, actor));
    case CloseBug(b, actor) => BugOutcomeAdvances(s, BugReportService.CloseBug(s, b, actor));
  }

  /** A bug operation that stores nothing on failure and, on success, stores
      a report without moving a stored one back extends the state. */
  lemma BugOutcomeAdvances(s: State, o: Outcome<BugReports.BugReport>)
    requires o.result.Failure? ==> o.after == s
    requires o.result.Success? ==>
               o.after == s.(bugs := s.bugs[o.result.value.id := o.result.value]) &&
               (o.result.value.id in s.bugs ==>
                  BugReports.Rank(s.bugs[o.result.value.id].status) <= BugReports.Rank(o.result.value.status))
    ensures Advances(s, o.after)
  {
    if o.result.Success? {
      PutBugAdvances(s, o.result.value);
    }
  }

  /** Storing a bug report extends the state unless it moves a stored one back. */
  lemma PutBugAdvances(s: State, b: BugReports.BugReport)
    requires b.id in s.bugs ==> BugReports.Rank(s.bugs[b.id].status) <= BugReports.Rank(b.status)
    ensures Advances(s, s.(bugs := s.bugs[b.id := b]))
  {
  }

  /** Any run from a state satisfying the invariant ends in one. */
  lemma {:induction false} RunKeepsInv(s: State, ops: seq<Op>)
    requires Inv(s)
    ensures Inv(Run(s, ops))
    decreases |ops|
  {
    if ops != [] {
      if Fresh(s, ops[0]) {
        ApplyKeepsInv(s, ops[0]);
      }
      RunKeepsInv(if Fresh(s, ops[0]) then Apply(s, ops[0]) else s, ops[1..]);
    }
  }

  /** Any run extends the state it starts from. */
  lemma {:induction false} RunAdvances(s: State, ops: seq<Op>)
    requires Inv(s)
    ensures Advances(s, Run(s, ops))
    decreases |ops|
  {
    if ops != [] {
      var next := if Fresh(s, ops[0]) then Apply(s, ops[0]) else s;
      if Fresh(s, ops[0]) {
        ApplyKeepsInv(s, ops[0]);
        ApplyAdvances(s, ops[0]);
      }
      RunAdvances(next, ops[1..]);
      AdvancesTransitive(s, next, Run(next, ops[1..]));
    }
  }

  /** The end states of a run: a CLOSED milestone, a DONE ticket and a CLOSED
      bug stay so, and projects keep their manager. */
  lemma TerminalStatusesStay(s: State, ops: seq<Op>)
    requires Inv(s)
    ensures var t := Run(s, ops);
            (forall k :: k in s.milestones && s.milestones[k].status == Milestones.Closed ==>
               k in t.milestones && t.milestones[k].status == Milestones.Closed) &&
            (forall k :: k in s.tickets && s.tickets[k].status == Tickets.Done ==>
               k in t.tickets && t.tickets[k].status == Tickets.Done) &&
            (forall k :: k in s.bugs && s.bugs[k].status == BugReports.Closed ==>
               k in t.bugs && t.bugs[k].status == BugReports.Closed) &&
            (forall k :: k in s.projects ==> k in t.projects && t.projects[k].managerId == s.projects[k].managerId)
  {
    RunAdvances(s, ops);
  }

  /** What holds in every state the services can reach from an empty store:
      a project has at most one ACTIVE milestone, and its manager holds the
      Manager role and no other post in its team. */
  lemma ReachableStates(ops: seq<Op>)
    ensures var t := Run(Empty(), ops);
            Inv(t) &&
            (forall a, b ::
               a in t.milestones && b in t.milestones && a != b &&
               t.milestones[a].projectId == t.milestones[b].projectId ==>
               !(t.milestones[a].status == Milestones.Active && t.milestones[b].status == Milestones.Active)) &&
            (forall p :: p in t.projects ==> RoleOf(t, t.projects[p].managerId, p) == Some(Manager)) &&
            (forall p :: p in t.projects ==>
               t.projects[p].teamLeadId != Some(t.projects[p].managerId) &&
               t.projects[p].managerId !in t.projects[p].developerIds &&
               t.projects[p].managerId !in t.projects[p].testerIds)
  {
    RunKeepsInv(Empty(), ops);
  }
}
