/** Milestones of a project and their OPEN -> ACTIVE -> CLOSED lifecycle. */
module Milestones {

  import opened Common
  import opened Text

  datatype MilestoneStatus = Open | Active | Closed

  /** Position along the lifecycle. */
  function Rank(s: MilestoneStatus): nat {
    match s
    case Open => 0
    case Active => 1
    case Closed => 2
  }

  datatype Milestone = Milestone(
    id: Uuid,
    name: string,
    projectId: Uuid,
    startDate: Day,
    endDate: Day,
    status: MilestoneStatus)
  {
    /** What the record's constructor enforces: a name and a non-empty date range. */
    predicate Valid() {
      !IsBlank(name) && startDate <= endDate
    }

    /** Equal in every field except possibly the status. */
    predicate SameButStatus(other: Milestone) {
      id == other.id && name == other.name && projectId == other.projectId &&
      startDate == other.startDate && endDate == other.endDate
    }

    function Activate(): (m: Milestone)
      ensures m.SameButStatus(this) && m.status == Active
      ensures m.Valid() == Valid()
    {
      this.(status := Active)
    }

    function Close(): (m: Milestone)
      ensures m.SameButStatus(this) && m.status == Closed
      ensures m.Valid() == Valid()
      ensures !m.CanAddTickets()
    {
      this.(status := Closed)
    }

    /** A milestone takes tickets until it reaches the last status of its
        lifecycle. */
    predicate CanAddTickets()
      ensures CanAddTickets() <==> Rank(status) < Rank(Closed)
    {
      status != Closed
    }
  }

  /** Creates an OPEN milestone; a blank name is refused first, then an end date
      before the start date (equal dates are allowed). */
  function Create(id: Uuid, name: string, projectId: Uuid, startDate: Day, endDate: Day): (r: Result<Milestone>)
    ensures r.Success? <==> !IsBlank(name) && startDate <= endDate
    ensures IsBlank(name) ==> r == Failure(BlankName)
    ensures !IsBlank(name) && endDate < startDate ==> r == Failure(EndBeforeStart)
    ensures r.Success? ==> r.value.Valid() && r.value.status == Open && r.value.CanAddTickets()
    ensures r.Success? ==> r.value.id == id && r.value.name == name && r.value.projectId == projectId
    ensures r.Success? ==> r.value.startDate == startDate && r.value.endDate == endDate
  {
    if IsBlank(name) then Failure(BlankName)
    else if endDate < startDate then Failure(EndBeforeStart)
    else Success(Milestone(id, name, projectId, startDate, endDate, Open))
  }

  /** Tickets may be added to OPEN and ACTIVE milestones only. */
  lemma CanAddTicketsIffNotClosed(m: Milestone)
    ensures m.CanAddTickets() <==> m.status == Open || m.status == Active
  {
  }

  /** Activation and closing move strictly forward along the lifecycle. */
  lemma TransitionsMoveForward(m: Milestone)
    ensures m.status == Open ==> Rank(m.Activate().status) == Rank(m.status) + 1
    ensures m.status == Active ==> Rank(m.Close().status) == Rank(m.status) + 1
    ensures Rank(m.Close().status) >= Rank(m.status)
  {
  }
}
