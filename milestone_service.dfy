/** The OPEN -> ACTIVE -> CLOSED milestone lifecycle, reserved to the
    project's manager: at most one ACTIVE milestone per project, and a
    milestone closes only when all its tickets are DONE. */
module MilestoneService {

  import opened Common
  import opened Text
  import opened Milestones
  import opened Tickets
  import opened Store
  import Repository
  import MilestoneRepository
  import TicketRepository

  /** Creates an OPEN milestone. The Manager role is checked before the
      project's existence, then the milestone's own validation applies. */
  function CreateMilestone(s: State, id: Uuid, name: string, projectId: Uuid,
                           startDate: Day, endDate: Day, userId: Uuid): (o: Outcome<Milestone>)
    ensures o.result.Success? <==>
              IsManager(s, userId, projectId) && projectId in s.projects &&
              !IsBlank(name) && startDate <= endDate
    ensures !IsManager(s, userId, projectId) ==> o.result == Failure(CannotCreateMilestone)
    ensures IsManager(s, userId, projectId) && projectId !in s.projects ==>
              o.result == Failure(ProjectNotFound)
    ensures IsManager(s, userId, projectId) && projectId in s.projects && o.result.Failure? ==>
              o.result == Milestones.Create(id, name, projectId, startDate, endDate)
    ensures o.result.Failure? ==> o.after == s
    ensures o.result.Success? ==>
              o.result.value == Milestone(id, name, projectId, startDate, endDate, Open) &&
              o.after == s.(milestones := s.milestones[id := o.result.value])
  {
    if !IsManager(s, userId, projectId) then
      Outcome(Failure(CannotCreateMilestone), s)
    else if Repository.FindById(s.projects, projectId).None? then
      Outcome(Failure(ProjectNotFound), s)
    else
      match Milestones.Create(id, name, projectId, startDate, endDate)
      case Failure(e) => Outcome(Failure(e), s)
      case Success(milestone) =>
        Outcome(Success(milestone), s.(milestones := Repository.Save(s.milestones, milestone.id, milestone)))
  }

  /** The guard of activation and closing: the milestone must exist, then the
      acting user must be Manager of its project. */
  function MilestoneAccess(s: State, milestoneId: Uuid, userId: Uuid): (r: Result<Milestone>)
    ensures r.Success? <==>
              milestoneId in s.milestones && IsManager(s, userId, s.milestones[milestoneId].projectId)
    ensures milestoneId !in s.milestones ==> r == Failure(MilestoneNotFound)
    ensures milestoneId in s.milestones && !IsManager(s, userId, s.milestones[milestoneId].projectId) ==>
              r == Failure(CannotManageMilestones)
    ensures r.Success? ==> r.value == s.milestones[milestoneId]
  {
    match Repository.FindById(s.milestones, milestoneId)
    case None => Failure(MilestoneNotFound)
    case Some(milestone) =>
      if !IsManager(s, userId, milestone.projectId) then Failure(CannotManageMilestones)
      else Success(milestone)
  }

  /** Activates an OPEN milestone. Whether the project already has an ACTIVE
      milestone is checked first, before the milestone's own status. */
  function ActivateMilestone(s: State, milestoneId: Uuid, userId: Uuid): (o: Outcome<Milestone>)
    ensures o.result.Success? <==>
              MilestoneAccess(s, milestoneId, userId).Success? &&
              !MilestoneRepository.HasActive(s.milestones, s.milestones[milestoneId].projectId) &&
              s.milestones[milestoneId].status == Open
    ensures MilestoneAccess(s, milestoneId, userId).Failure? ==>
              o.result == Failure(MilestoneAccess(s, milestoneId, userId).error)
    ensures MilestoneAccess(s, milestoneId, userId).Success? &&
            MilestoneRepository.HasActive(s.milestones, s.milestones[milestoneId].projectId) ==>
              o.result == Failure(ActiveMilestoneExists)
    ensures MilestoneAccess(s, milestoneId, userId).Success? &&
            !MilestoneRepository.HasActive(s.milestones, s.milestones[milestoneId].projectId) &&
            s.milestones[milestoneId].status != Open ==>
              o.result == Failure(CanActivateOnlyOpen)
    ensures o.result.Failure? ==> o.after == s
    ensures o.result.Success? ==>
              o.result.value == s.milestones[milestoneId].Activate() &&
              o.after == s.(milestones := s.milestones[o.result.value.id := o.result.value])
  {
    match MilestoneAccess(s, milestoneId, userId)
    case Failure(e) => Outcome(Failure(e), s)
    case Success(milestone) =>
      if MilestoneRepository.HasActive(s.milestones, milestone.projectId) then
        Outcome(Failure(ActiveMilestoneExists), s)
      else if milestone.status != Open then
        Outcome(Failure(CanActivateOnlyOpen), s)
      else
        var activated := milestone.Activate();
        Outcome(Success(activated), s.(milestones := Repository.Save(s.milestones, activated.id, activated)))
  }

  /** Closes an ACTIVE milestone whose tickets are all DONE; otherwise the
      failure reports how many are not. */
  function CloseMilestone(s: State, milestoneId: Uuid, userId: Uuid): (o: Outcome<Milestone>)
    ensures o.result.Success? <==>
              MilestoneAccess(s, milestoneId, userId).Success? &&
              s.milestones[milestoneId].status == Active &&
              forall k :: k in s.tickets && s.tickets[k].milestoneId == milestoneId ==> s.tickets[k].status == Done
    ensures MilestoneAccess(s, milestoneId, userId).Failure? ==>
              o.result == Failure(MilestoneAccess(s, milestoneId, userId).error)
    ensures MilestoneAccess(s, milestoneId, userId).Success? && s.milestones[milestoneId].status != Active ==>
              o.result == Failure(CanCloseOnlyActive)
    ensures MilestoneAccess(s, milestoneId, userId).Success? && s.milestones[milestoneId].status == Active &&
            TicketRepository.CountIncomplete(s.tickets, milestoneId) > 0 ==>
              o.result == Failure(IncompleteTickets(TicketRepository.CountIncomplete(s.tickets, milestoneId)))
    ensures o.result.Failure? ==> o.after == s
    ensures o.result.Success? ==>
              o.result.value == s.milestones[milestoneId].Close() &&
              o.after == s.(milestones := s.milestones[o.result.value.id := o.result.value])
  {
    match MilestoneAccess(s, milestoneId, userId)
    case Failure(e) => Outcome(Failure(e), s)
    case Success(milestone) =>
      if milestone.status != Active then
        Outcome(Failure(CanCloseOnlyActive), s)
      else
        var incomplete := TicketRepository.CountIncomplete(s.tickets, milestoneId);
        if incomplete > 0 then
          Outcome(Failure(IncompleteTickets(incomplete)), s)
        else
          var closed := milestone.Close();
          Outcome(Success(closed), s.(milestones := Repository.Save(s.milestones, closed.id, closed)))
  }

  lemma CreateMilestoneKeepsInv(s: State, id: Uuid, name: string, projectId: Uuid,
                                startDate: Day, endDate: Day, userId: Uuid)
    requires Inv(s) && id !in s.milestones
    ensures Inv(CreateMilestone(s, id, name, projectId, startDate, endDate, userId).after)
  {
    var o := CreateMilestone(s, id, name, projectId, startDate, endDate, userId);
    if o.result.Success? {
      PutMilestoneKeepsInv(s, o.result.value);
    }
  }

  /** Activation keeps at most one ACTIVE milestone per project. */
  lemma ActivateMilestoneKeepsInv(s: State, milestoneId: Uuid, userId: Uuid)
    requires Inv(s)
    ensures Inv(ActivateMilestone(s, milestoneId, userId).after)
  {
    var o := ActivateMilestone(s, milestoneId, userId);
    if o.result.Success? {
      var m := o.result.value;
      assert m.id == milestoneId;
      forall k | k in s.milestones && k != m.id && s.milestones[k].projectId == m.projectId
        ensures s.milestones[k].status != Active
      {
        assert !MilestoneRepository.HasActive(s.milestones, m.projectId);
      }
      PutMilestoneKeepsInv(s, m);
    }
  }

  /** Closing keeps every ticket of a CLOSED milestone DONE. */
  lemma CloseMilestoneKeepsInv(s: State, milestoneId: Uuid, userId: Uuid)
    requires Inv(s)
    ensures Inv(CloseMilestone(s, milestoneId, userId).after)
  {
    var o := CloseMilestone(s, milestoneId, userId);
    if o.result.Success? {
      PutMilestoneKeepsInv(s, o.result.value);
    }
  }

  /** Under the invariant the Manager role implies the project exists, so
      creation never reports a missing project. */
  lemma CreateMilestoneNeverMissesProject(s: State, id: Uuid, name: string, projectId: Uuid,
                                          startDate: Day, endDate: Day, userId: Uuid)
    requires Inv(s)
    ensures CreateMilestone(s, id, name, projectId, startDate, endDate, userId).result != Failure(ProjectNotFound)
  {
    ManagerRoleIsProjectManager(s, userId, projectId);
  }

  /** Because the check for an ACTIVE milestone comes first, activating an
      already ACTIVE milestone reports that the project has one. */
  lemma ReactivationReportsActiveMilestone(s: State, milestoneId: Uuid, userId: Uuid)
    requires MilestoneAccess(s, milestoneId, userId).Success?
    requires s.milestones[milestoneId].status == Active
    ensures ActivateMilestone(s, milestoneId, userId).result == Failure(ActiveMilestoneExists)
  {
    assert MilestoneRepository.HasActive(s.milestones, s.milestones[milestoneId].projectId);
  }

  /** A failed close leaves an ACTIVE milestone ACTIVE. */
  lemma FailedCloseLeavesActive(s: State, milestoneId: Uuid, userId: Uuid)
    requires milestoneId in s.milestones && s.milestones[milestoneId].status == Active
    requires CloseMilestone(s, milestoneId, userId).result.Failure?
    ensures CloseMilestone(s, milestoneId, userId).after.milestones[milestoneId].status == Active
  {
  }
}
