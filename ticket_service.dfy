/** Tickets and their NEW -> ACCEPTED -> IN_PROGRESS -> DONE lifecycle:
    created and assigned by ticket managers, advanced by their assignees. */
module TicketService {

  import opened Common
  import opened Text
  import opened Roles
  import Milestones
  import opened Tickets
  import opened Store
  import Repository
  import TicketRepository

  /** The three status changes, each with the status it expects. */
  datatype Transition = ToAccepted | ToInProgress | ToDone {
    function Expected(): TicketStatus {
      match this
      case ToAccepted => New
      case ToInProgress => Accepted
      case ToDone => InProgress
    }

    function ApplyTo(t: Ticket): (r: Ticket)
      ensures r.SameButStatus(t) && r.Valid() == t.Valid()
      ensures Rank(r.status) == Rank(Expected()) + 1
    {
      match this
      case ToAccepted => t.Accept()
      case ToInProgress => t.StartWork()
      case ToDone => t.Complete()
    }
  }

  /** Creates a NEW ticket in an OPEN or ACTIVE milestone of the project; only
      users whose role may manage tickets may do so. */
  function CreateTicket(s: State, id: Uuid, title: string, description: Option<string>,
                        projectId: Uuid, milestoneId: Uuid, userId: Uuid): (o: Outcome<Ticket>)
    ensures o.result.Success? <==>
              Permits(RoleOf(s, userId, projectId), ManageTickets) &&
              milestoneId in s.milestones && s.milestones[milestoneId].projectId == projectId &&
              s.milestones[milestoneId].status != Milestones.Closed && !IsBlank(title)
    ensures !Permits(RoleOf(s, userId, projectId), ManageTickets) ==> o.result == Failure(CannotCreateTickets)
    ensures Permits(RoleOf(s, userId, projectId), ManageTickets) &&
            (milestoneId !in s.milestones || s.milestones[milestoneId].projectId != projectId) ==>
              o.result == Failure(MilestoneNotFound)
    ensures Permits(RoleOf(s, userId, projectId), ManageTickets) &&
            milestoneId in s.milestones && s.milestones[milestoneId].projectId == projectId &&
            s.milestones[milestoneId].status == Milestones.Closed ==>
              o.result == Failure(ClosedMilestone)
    ensures Permits(RoleOf(s, userId, projectId), ManageTickets) &&
            milestoneId in s.milestones && s.milestones[milestoneId].projectId == projectId &&
            s.milestones[milestoneId].status != Milestones.Closed && IsBlank(title) ==>
              o.result == Failure(BlankTitle)
    ensures o.result.Failure? ==> o.after == s
    ensures o.result.Success? ==>
              o.result.value == Ticket(id, title, OrEmpty(description), projectId, milestoneId, {}, New) &&
              o.after == s.(tickets := s.tickets[id := o.result.value])
  {
    if !Permits(RoleOf(s, userId, projectId), ManageTickets) then
      Outcome(Failure(CannotCreateTickets), s)
    else
      match Repository.FindById(s.milestones, milestoneId)
      case None => Outcome(Failure(MilestoneNotFound), s)
      case Some(milestone) =>
        if milestone.projectId != projectId then
          Outcome(Failure(MilestoneNotFound), s)
        else if !milestone.CanAddTickets() then
          Outcome(Failure(ClosedMilestone), s)
        else
          match Tickets.Create(id, title, description, projectId, milestoneId)
          case Failure(e) => Outcome(Failure(e), s)
          case Success(ticket) =>
            Outcome(Success(ticket), s.(tickets := Repository.Save(s.tickets, ticket.id, ticket)))
  }

  /** Adds an assignee to a ticket; the actor must be allowed to manage
      tickets of its project and the assignee must be one of its developers. */
  function AssignTicket(s: State, ticketId: Uuid, assigneeId: Uuid, userId: Uuid): (o: Outcome<Ticket>)
    ensures o.result.Success? <==>
              ticketId in s.tickets &&
              Permits(RoleOf(s, userId, s.tickets[ticketId].projectId), ManageTickets) &&
              s.tickets[ticketId].projectId in s.projects &&
              s.projects[s.tickets[ticketId].projectId].IsDeveloper(assigneeId)
    ensures ticketId !in s.tickets ==> o.result == Failure(TicketNotFound)
    ensures ticketId in s.tickets && !Permits(RoleOf(s, userId, s.tickets[ticketId].projectId), ManageTickets) ==>
              o.result == Failure(CannotAssignTickets)
    ensures ticketId in s.tickets && Permits(RoleOf(s, userId, s.tickets[ticketId].projectId), ManageTickets) &&
            (s.tickets[ticketId].projectId !in s.projects ||
             !s.projects[s.tickets[ticketId].projectId].IsDeveloper(assigneeId)) ==>
              o.result == Failure(CannotBeAssigned)
    ensures o.result.Failure? ==> o.after == s
    ensures o.result.Success? ==>
              o.result.value == s.tickets[ticketId].WithAssignee(assigneeId) &&
              o.after == s.(tickets := s.tickets[o.result.value.id := o.result.value])
  {
    match Repository.FindById(s.tickets, ticketId)
    case None => Outcome(Failure(TicketNotFound), s)
    case Some(ticket) =>
      if !Permits(RoleOf(s, userId, ticket.projectId), ManageTickets) then
        Outcome(Failure(CannotAssignTickets), s)
      else
        match Repository.FindById(s.projects, ticket.projectId)
        case None => Outcome(Failure(CannotBeAssigned), s)
        case Some(project) =>
          if !project.IsDeveloper(assigneeId) then
            Outcome(Failure(CannotBeAssigned), s)
          else
            var updated := ticket.WithAssignee(assigneeId);
            Outcome(Success(updated), s.(tickets := Repository.Save(s.tickets, updated.id, updated)))
  }

  /** The common path of the three status changes. The checks run in a fixed
      order, each with its own reason: the ticket exists, the actor's role may
      execute tickets, the actor is an assignee, the status is the expected one. */
  function UpdateTicketStatus(s: State, ticketId: Uuid, userId: Uuid, action: Transition): (o: Outcome<Ticket>)
    ensures o.result.Success? <==>
              ticketId in s.tickets &&
              Permits(RoleOf(s, userId, s.tickets[ticketId].projectId), ExecuteTickets) &&
              s.tickets[ticketId].IsAssignedTo(userId) &&
              s.tickets[ticketId].status == action.Expected()
    ensures ticketId !in s.tickets ==> o.result == Failure(TicketNotFound)
    ensures ticketId in s.tickets &&
            !Permits(RoleOf(s, userId, s.tickets[ticketId].projectId), ExecuteTickets) ==>
              o.result == Failure(CannotUpdateTicketStatus)
    ensures ticketId in s.tickets &&
            Permits(RoleOf(s, userId, s.tickets[ticketId].projectId), ExecuteTickets) &&
            !s.tickets[ticketId].IsAssignedTo(userId) ==>
              o.result == Failure(AssignedToAnotherUser)
    ensures ticketId in s.tickets &&
            Permits(RoleOf(s, userId, s.tickets[ticketId].projectId), ExecuteTickets) &&
            s.tickets[ticketId].IsAssignedTo(userId) && s.tickets[ticketId].status != action.Expected() ==>
              o.result == Failure(IncorrectTicketStatus)
    ensures o.result.Failure? ==> o.after == s
    ensures o.result.Success? ==>
              o.result.value == action.ApplyTo(s.tickets[ticketId]) &&
              o.after == s.(tickets := s.tickets[o.result.value.id := o.result.value])
  {
    match Repository.FindById(s.tickets, ticketId)
    case None => Outcome(Failure(TicketNotFound), s)
    case Some(ticket) =>
      if !Permits(RoleOf(s, userId, ticket.projectId), ExecuteTickets) then
        Outcome(Failure(CannotUpdateTicketStatus), s)
      else if !ticket.IsAssignedTo(userId) then
        Outcome(Failure(AssignedToAnotherUser), s)
      else if ticket.status != action.Expected() then
        Outcome(Failure(IncorrectTicketStatus), s)
      else
        var updated := action.ApplyTo(ticket);
        Outcome(Success(updated), s.(tickets := Repository.Save(s.tickets, updated.id, updated)))
  }

  function AcceptTicket(s: State, ticketId: Uuid, userId: Uuid): (o: Outcome<Ticket>)
    ensures o.result.Success? ==> ticketId in s.tickets && s.tickets[ticketId].status == New && o.result.value.status == Accepted
  {
    UpdateTicketStatus(s, ticketId, userId, ToAccepted)
  }

  function StartWork(s: State, ticketId: Uuid, userId: Uuid): (o: Outcome<Ticket>)
    ensures o.result.Success? ==> ticketId in s.tickets && s.tickets[ticketId].status == Accepted && o.result.value.status == InProgress
  {
    UpdateTicketStatus(s, ticketId, userId, ToInProgress)
  }

  function CompleteTicket(s: State, ticketId: Uuid, userId: Uuid): (o: Outcome<Ticket>)
    ensures o.result.Success? ==> ticketId in s.tickets && s.tickets[ticketId].status == InProgress && o.result.value.status == Done
  {
    UpdateTicketStatus(s, ticketId, userId, ToDone)
  }

  /** Ticket counts of the milestone by status: each count is the number of
      the milestone's tickets in that status. */
  function GetTicketStats(s: State, milestoneId: Uuid): (stats: map<TicketStatus, nat>)
    ensures forall st :: Repository.CountOf(stats, st) ==
              |set k | k in s.tickets && s.tickets[k].milestoneId == milestoneId && s.tickets[k].status == st|
    ensures forall st :: st in stats ==> stats[st] >= 1
  {
    var stats := TicketRepository.GetStatusStats(s.tickets, milestoneId);
    assert forall st :: Repository.CountOf(stats, st) ==
             |set k | k in s.tickets && s.tickets[k].milestoneId == milestoneId && s.tickets[k].status == st| by {
      forall st ensures Repository.CountOf(stats, st) ==
               |set k | k in s.tickets && s.tickets[k].milestoneId == milestoneId && s.tickets[k].status == st| {
        TicketRepository.StatusStatsCount(s.tickets, milestoneId, st);
      }
    }
    stats
  }

  lemma CreateTicketKeepsInv(s: State, id: Uuid, title: string, description: Option<string>,
                             projectId: Uuid, milestoneId: Uuid, userId: Uuid)
    requires Inv(s)
    ensures Inv(CreateTicket(s, id, title, description, projectId, milestoneId, userId).after)
  {
    var o := CreateTicket(s, id, title, description, projectId, milestoneId, userId);
    if o.result.Success? {
      PutTicketKeepsInv(s, o.result.value);
    }
  }

  lemma AssignTicketKeepsInv(s: State, ticketId: Uuid, assigneeId: Uuid, userId: Uuid)
    requires Inv(s)
    ensures Inv(AssignTicket(s, ticketId, assigneeId, userId).after)
  {
    var o := AssignTicket(s, ticketId, assigneeId, userId);
    if o.result.Success? {
      PutTicketKeepsInv(s, o.result.value);
    }
  }

  /** A status change keeps the invariant: a ticket of a CLOSED milestone is
      DONE, and no transition expects DONE, so it cannot be changed. */
  lemma UpdateTicketStatusKeepsInv(s: State, ticketId: Uuid, userId: Uuid, action: Transition)
    requires Inv(s)
    ensures Inv(UpdateTicketStatus(s, ticketId, userId, action).after)
  {
    var o := UpdateTicketStatus(s, ticketId, userId, action);
    if o.result.Success? {
      assert s.tickets[ticketId].status != Done;
      PutTicketKeepsInv(s, o.result.value);
    }
  }

  /** A ticket's status never moves backwards, and a DONE ticket stays DONE. */
  lemma StatusNeverRegresses(s: State, ticketId: Uuid, userId: Uuid, action: Transition)
    requires ticketId in s.tickets && s.tickets[ticketId].id == ticketId
    ensures var after := UpdateTicketStatus(s, ticketId, userId, action).after;
            ticketId in after.tickets &&
            Rank(after.tickets[ticketId].status) >= Rank(s.tickets[ticketId].status) &&
            (s.tickets[ticketId].status == Done ==> after.tickets[ticketId].status == Done)
  {
  }
}
