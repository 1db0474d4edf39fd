/** Tickets of a milestone and their NEW -> ACCEPTED -> IN_PROGRESS -> DONE
    lifecycle. */
module Tickets {

  import opened Common
  import opened Text

  datatype TicketStatus = New | Accepted | InProgress | Done

  /** Position along the lifecycle. */
  function Rank(s: TicketStatus): nat {
    match s
    case New => 0
    case Accepted => 1
    case InProgress => 2
    case Done => 3
  }

  datatype Ticket = Ticket(
    id: Uuid,
    title: string,
    description: string,
    projectId: Uuid,
    milestoneId: Uuid,
    assigneeIds: set<Uuid>,
    status: TicketStatus)
  {
    /** What the record's constructor enforces. */
    predicate Valid() {
      !IsBlank(title)
    }

    /** Equal in every field except possibly the status. */
    predicate SameButStatus(other: Ticket) {
      id == other.id && title == other.title && description == other.description &&
      projectId == other.projectId && milestoneId == other.milestoneId &&
      assigneeIds == other.assigneeIds
    }

    function WithAssignee(assignee: Uuid): (t: Ticket)
      ensures t.IsAssignedTo(assignee)
      ensures forall u :: t.IsAssignedTo(u) <==> IsAssignedTo(u) || u == assignee
      ensures t.status == status && t.Valid() == Valid()
      ensures t.id == id && t.title == title && t.description == description
      ensures t.projectId == projectId && t.milestoneId == milestoneId
    {
      this.(assigneeIds := assigneeIds + {assignee})
    }

    /** The transitions set their status whatever the current one is; the
        caller checks the expected prior status. */
    function Accept(): (t: Ticket)
      ensures t.SameButStatus(this) && t.status == Accepted && t.Valid() == Valid()
    {
      this.(status := Accepted)
    }

    function StartWork(): (t: Ticket)
      ensures t.SameButStatus(this) && t.status == InProgress && t.Valid() == Valid()
    {
      this.(status := InProgress)
    }

    function Complete(): (t: Ticket)
      ensures t.SameButStatus(this) && t.status == Done && t.Valid() == Valid()
      ensures t.IsCompleted()
    {
      this.(status := Done)
    }

    /** Whether the user is among the ticket's assignees; nobody is assigned
        to a ticket without assignees. */
    predicate IsAssignedTo(userId: Uuid)
      ensures IsAssignedTo(userId) <==> userId in assigneeIds
      ensures assigneeIds == {} ==> !IsAssignedTo(userId)
    {
      userId in assigneeIds
    }

    /** A ticket is completed when its status is the last of the lifecycle. */
    predicate IsCompleted()
      ensures IsCompleted() <==> Rank(status) == Rank(Done)
      ensures IsCompleted() ==> forall s :: Rank(s) <= Rank(status)
    {
      status == Done
    }
  }

  /** Creates a NEW ticket without assignees; a blank title is refused and a
      missing description becomes the empty string. */
  function Create(id: Uuid, title: string, description: Option<string>, projectId: Uuid, milestoneId: Uuid): (r: Result<Ticket>)
    ensures r.Success? <==> !IsBlank(title)
    ensures r.Failure? ==> r.error == BlankTitle
    ensures r.Success? ==> r.value.Valid() && r.value.status == New && !r.value.IsCompleted()
    ensures r.Success? ==> forall u :: !r.value.IsAssignedTo(u)
    ensures r.Success? ==> r.value.id == id && r.value.title == title && r.value.description == OrEmpty(description)
    ensures r.Success? ==> r.value.projectId == projectId && r.value.milestoneId == milestoneId
  {
    if IsBlank(title) then Failure(BlankTitle)
    else Success(Ticket(id, title, OrEmpty(description), projectId, milestoneId, {}, New))
  }

  /** Assigning the same user twice is the same as assigning once. */
  lemma WithAssigneeIdempotent(t: Ticket, u: Uuid)
    ensures t.WithAssignee(u).WithAssignee(u) == t.WithAssignee(u)
    ensures t.IsAssignedTo(u) ==> t.WithAssignee(u) == t
  {
  }

  /** Each transition, applied from the status it expects, advances by one step. */
  lemma TransitionsAdvanceOneStep(t: Ticket)
    ensures t.status == New ==> Rank(t.Accept().status) == Rank(t.status) + 1
    ensures t.status == Accepted ==> Rank(t.StartWork().status) == Rank(t.status) + 1
    ensures t.status == InProgress ==> Rank(t.Complete().status) == Rank(t.status) + 1
  {
  }
}
