/** Shared vocabulary of the tracker: identifiers, the optional value and the
    Success/Failure result every service operation returns. */
module Common {

  /** Identifiers (UUIDs in the system) are compared only for equality. */
  type Uuid = int

  /** A calendar day, counted from a fixed epoch. */
  type Day = int

  /** A point in time, counted from a fixed epoch. */
  type Timestamp = int

  datatype Option<+T> = None | Some(value: T)

  /** Why an operation was refused; one reason per distinct failure message. */
  datatype Error =
    // lookups
    | UserNotFound
    | ProjectNotFound
    | MilestoneNotFound
    | TicketNotFound
    | BugNotFound
    // construction-time validation
    | BlankName
    | BlankTitle
    | EndBeforeStart
    // registration
    | DuplicateEmail(email: string)
    // team roster
    | NotPermitted
    | ManagerCannotBeTeamLead
    | ManagerCannotBeDeveloper
    | ManagerCannotBeTester
    | AlreadyDeveloper
    // milestones
    | CannotCreateMilestone
    | CannotManageMilestones
    | ActiveMilestoneExists
    | CanActivateOnlyOpen
    | CanCloseOnlyActive
    | IncompleteTickets(count: nat)
    // tickets
    | CannotCreateTickets
    | ClosedMilestone
    | CannotAssignTickets
    | CannotBeAssigned
    | CannotUpdateTicketStatus
    | AssignedToAnotherUser
    | IncorrectTicketStatus
    // bug reports
    | CannotCreateBugReports
    | CannotAssignBugs
    | CannotFixBugs
    | CannotTestBugs
    | CannotCloseBugs
    | IncorrectBugStatus

  /** The two-case result of every mutating operation. */
  datatype Result<+T> = Success(value: T) | Failure(error: Error) {

    predicate IsSuccess() {
      Success?
    }

    predicate IsFailure() {
      Failure?
    }

    /** The wrapped value; calling it on a Failure is the throwing case, which
        callers must rule out. */
    function OrElseThrow(): (v: T)
      requires IsSuccess()
      ensures this == Success(v)
    {
      match this
      case Success(v) => v
    }
  }

  /** A result is a success or a failure, never both. */
  lemma ExactlyOneOutcome<T>(r: Result<T>)
    ensures r.IsSuccess() <==> r.Success?
    ensures r.IsFailure() <==> r.Failure?
    ensures r.IsSuccess() != r.IsFailure()
  {
  }
}
