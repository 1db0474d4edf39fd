/** Bug reports and their NEW -> FIXED -> TESTED -> CLOSED lifecycle, each
    step gated by a capability of the acting user's role. The capability is
    always checked before the status. */
module BugReportService {

  import opened Common
  import opened Text
  import opened Roles
  import opened BugReports
  import opened Store
  import Repository
  import BugReportRepository

  /** Files a NEW, unassigned report of the acting user against a stored
      project; the user's role must allow creating bug reports. */
  function CreateBugReport(s: State, id: Uuid, title: string, description: Option<string>,
                           projectId: Uuid, userId: Uuid, createdAt: Timestamp): (o: Outcome<BugReport>)
    ensures o.result.Success? <==>
              projectId in s.projects && Permits(RoleOf(s, userId, projectId), CreateBugReports) &&
              !IsBlank(title)
    ensures projectId !in s.projects ==> o.result == Failure(ProjectNotFound)
    ensures projectId in s.projects && !Permits(RoleOf(s, userId, projectId), CreateBugReports) ==>
              o.result == Failure(CannotCreateBugReports)
    ensures projectId in s.projects && Permits(RoleOf(s, userId, projectId), CreateBugReports) && IsBlank(title) ==>
              o.result == Failure(BlankTitle)
    ensures o.result.Failure? ==> o.after == s
    ensures o.result.Success? ==>
              o.result.value == BugReport(id, title, OrEmpty(description), projectId, userId, None, New, createdAt) &&
              o.after == s.(bugs := s.bugs[id := o.result.value])
  {
    if Repository.FindById(s.projects, projectId).None? then
      Outcome(Failure(ProjectNotFound), s)
    else if !Permits(RoleOf(s, userId, projectId), CreateBugReports) then
      Outcome(Failure(CannotCreateBugReports), s)
    else
      match BugReports.Create(id, title, description, projectId, userId, createdAt)
      case Failure(e) => Outcome(Failure(e), s)
      case Success(bug) => Outcome(Success(bug), s.(bugs := Repository.Save(s.bugs, bug.id, bug)))
  }

  /** Assigns a bug at any status, replacing any previous assignee; the actor
      must be allowed to manage tickets and the assignee to fix bugs. */
  function AssignBug(s: State, bugId: Uuid, assigneeId: Uuid, userId: Uuid): (o: Outcome<BugReport>)
    ensures o.result.Success? <==>
              bugId in s.bugs &&
              Permits(RoleOf(s, userId, s.bugs[bugId].projectId), ManageTickets) &&
              Permits(RoleOf(s, assigneeId, s.bugs[bugId].projectId), FixBugs)
    ensures bugId !in s.bugs ==> o.result == Failure(BugNotFound)
    ensures bugId in s.bugs && !Permits(RoleOf(s, userId, s.bugs[bugId].projectId), ManageTickets) ==>
              o.result == Failure(CannotAssignBugs)
    ensures bugId in s.bugs && Permits(RoleOf(s, userId, s.bugs[bugId].projectId), ManageTickets) &&
            !Permits(RoleOf(s, assigneeId, s.bugs[bugId].projectId), FixBugs) ==>
              o.result == Failure(CannotFixBugs)
    ensures o.result.Failure? ==> o.after == s
    ensures o.result.Success? ==>
              o.result.value == s.bugs[bugId].WithAssignee(assigneeId) &&
              o.after == s.(bugs := s.bugs[o.result.value.id := o.result.value])
  {
    match Repository.FindById(s.bugs, bugId)
    case None => Outcome(Failure(BugNotFound), s)
    case Some(bug) =>
      if !Permits(RoleOf(s, userId, bug.projectId), ManageTickets) then
        Outcome(Failure(CannotAssignBugs), s)
      else if !Permits(RoleOf(s, assigneeId, bug.projectId), FixBugs) then
        Outcome(Failure(CannotFixBugs), s)
      else
        var updated := bug.WithAssignee(assigneeId);
        Outcome(Success(updated), s.(bugs := Repository.Save(s.bugs, updated.id, updated)))
  }

  /** Marks a NEW bug FIXED. Any user whose role may fix bugs may do so,
      whether or not the bug is assigned to them. */
  function MarkFixed(s: State, bugId: Uuid, userId: Uuid): (o: Outcome<BugReport>)
    ensures o.result.Success? <==>
              bugId in s.bugs && Permits(RoleOf(s, userId, s.bugs[bugId].projectId), FixBugs) &&
              s.bugs[bugId].status == New
    ensures bugId !in s.bugs ==> o.result == Failure(BugNotFound)
    ensures bugId in s.bugs && !Permits(RoleOf(s, userId, s.bugs[bugId].projectId), FixBugs) ==>
              o.result == Failure(CannotFixBugs)
    ensures bugId in s.bugs && Permits(RoleOf(s, userId, s.bugs[bugId].projectId), FixBugs) &&
            s.bugs[bugId].status != New ==>
              o.result == Failure(IncorrectBugStatus)
    ensures o.result.Failure? ==> o.after == s
    ensures o.result.Success? ==>
              o.result.value == s.bugs[bugId].MarkFixed() &&
              o.after == s.(bugs := s.bugs[o.result.value.id := o.result.value])
  {
    match Repository.FindById(s.bugs, bugId)
    case None => Outcome(Failure(BugNotFound), s)
    case Some(bug) =>
      if !Permits(RoleOf(s, userId, bug.projectId), FixBugs) then
        Outcome(Failure(CannotFixBugs), s)
      else if bug.status != New then
        Outcome(Failure(IncorrectBugStatus), s)
      else
        var updated := bug.MarkFixed();
        Outcome(Success(updated), s.(bugs := Repository.Save(s.bugs, updated.id, updated)))
  }

  /** Marks a FIXED bug TESTED; the role must allow testing bugs. */
  function MarkTested(s: State, bugId: Uuid, userId: Uuid): (o: Outcome<BugReport>)
    ensures o.result.Success? <==>
              bugId in s.bugs && Permits(RoleOf(s, userId, s.bugs[bugId].projectId), TestBugs) &&
              s.bugs[bugId].status == Fixed
    ensures bugId !in s.bugs ==> o.result == Failure(BugNotFound)
    ensures bugId in s.bugs && !Permits(RoleOf(s, userId, s.bugs[bugId].projectId), TestBugs) ==>
              o.result == Failure(CannotTestBugs)
    ensures bugId in s.bugs && Permits(RoleOf(s, userId, s.bugs[bugId].projectId), TestBugs) &&
            s.bugs[bugId].status != Fixed ==>
              o.result == Failure(IncorrectBugStatus)
    ensures o.result.Failure? ==> o.after == s
    ensures o.result.Success? ==>
              o.result.value == s.bugs[bugId].MarkTested() &&
              o.after == s.(bugs := s.bugs[o.result.value.id := o.result.value])
  {
    match Repository.FindById(s.bugs, bugId)
    case None => Outcome(Failure(BugNotFound), s)
    case Some(bug) =>
      if !Permits(RoleOf(s, userId, bug.projectId), TestBugs) then
        Outcome(Failure(CannotTestBugs), s)
      else if bug.status != Fixed then
        Outcome(Failure(IncorrectBugStatus), s)
      else
        var updated := bug.MarkTested();
        Outcome(Success(updated), s.(bugs := Repository.Save(s.bugs, updated.id, updated)))
  }

  /** Closes a TESTED bug; the role must allow testing bugs. */
  function CloseBug(s: State, bugId: Uuid, userId: Uuid): (o: Outcome<BugReport>)
    ensures o.result.Success? <==>
              bugId in s.bugs && Permits(RoleOf(s, userId, s.bugs[bugId].projectId), TestBugs) &&
              s.bugs[bugId].status == Tested
    ensures bugId !in s.bugs ==> o.result == Failure(BugNotFound)
    ensures bugId in s.bugs && !Permits(RoleOf(s, userId, s.bugs[bugId].projectId), TestBugs) ==>
              o.result == Failure(CannotCloseBugs)
    ensures bugId in s.bugs && Permits(RoleOf(s, userId, s.bugs[bugId].projectId), TestBugs) &&
            s.bugs[bugId].status != Tested ==>
              o.result == Failure(IncorrectBugStatus)
    ensures o.result.Failure? ==> o.after == s
    ensures o.result.Success? ==>
              o.result.value == s.bugs[bugId].Close() &&
              o.after == s.(bugs := s.bugs[o.result.value.id := o.result.value])
  {
    match Repository.FindById(s.bugs, bugId)
    case None => Outcome(Failure(BugNotFound), s)
    case Some(bug) =>
      if !Permits(RoleOf(s, userId, bug.projectId), TestBugs) then
        Outcome(Failure(CannotCloseBugs), s)
      else if bug.status != Tested then
        Outcome(Failure(IncorrectBugStatus), s)
      else
        var updated := bug.Close();
        Outcome(Success(updated), s.(bugs := Repository.Save(s.bugs, updated.id, updated)))
  }

  /** Bug counts of the project by status: each count is the number of the
      project's bugs in that status. */
  function GetBugStats(s: State, projectId: Uuid): (stats: map<BugStatus, nat>)
    ensures forall st :: Repository.CountOf(stats, st) ==
              |set k | k in s.bugs && s.bugs[k].projectId == projectId && s.bugs[k].status == st|
    ensures forall st :: st in stats ==> stats[st] >= 1
  {
    var stats := BugReportRepository.GetStatusStats(s.bugs, projectId);
    assert forall st :: Repository.CountOf(stats, st) ==
             |set k | k in s.bugs && s.bugs[k].projectId == projectId && s.bugs[k].status == st| by {
      forall st ensures Repository.CountOf(stats, st) ==
               |set k | k in s.bugs && s.bugs[k].projectId == projectId && s.bugs[k].status == st| {
        BugReportRepository.StatusStatsCount(s.bugs, projectId, st);
      }
    }
    stats
  }

  lemma CreateBugReportKeepsInv(s: State, id: Uuid, title: string, description: Option<string>,
                                projectId: Uuid, userId: Uuid, createdAt: Timestamp)
    requires Inv(s)
    ensures Inv(CreateBugReport(s, id, title, description, projectId, userId, createdAt).after)
  {
    var o := CreateBugReport(s, id, title, description, projectId, userId, createdAt);
    if o.result.Success? {
      PutBugKeepsInv(s, o.result.value);
    }
  }

  lemma AssignBugKeepsInv(s: State, bugId: Uuid, assigneeId: Uuid, userId: Uuid)
    requires Inv(s)
    ensures Inv(AssignBug(s, bugId, assigneeId, userId).after)
  {
    var o := AssignBug(s, bugId, assigneeId, userId);
    if o.result.Success? {
      PutBugKeepsInv(s, o.result.value);
    }
  }

  lemma MarkFixedKeepsInv(s: State, bugId: Uuid, userId: Uuid)
    requires Inv(s)
    ensures Inv(MarkFixed(s, bugId, userId).after)
  {
    var o := MarkFixed(s, bugId, userId);
    if o.result.Success? {
      PutBugKeepsInv(s, o.result.value);
    }
  }

  lemma MarkTestedKeepsInv(s: State, bugId: Uuid, userId: Uuid)
    requires Inv(s)
    ensures Inv(MarkTested(s, bugId, userId).after)
  {
    var o := MarkTested(s, bugId, userId);
    if o.result.Success? {
      PutBugKeepsInv(s, o.result.value);
    }
  }

  lemma CloseBugKeepsInv(s: State, bugId: Uuid, userId: Uuid)
    requires Inv(s)
    ensures Inv(CloseBug(s, bugId, userId).after)
  {
    var o := CloseBug(s, bugId, userId);
    if o.result.Success? {
      PutBugKeepsInv(s, o.result.value);
    }
  }

  /** Marking a bug fixed depends on the actor's role and the bug's status
      only: whoever the bug is assigned to, any user allowed to fix bugs in the
      project may do it. */
  lemma MarkFixedIgnoresAssignee(s: State, bugId: Uuid, userId: Uuid)
    requires bugId in s.bugs && s.bugs[bugId].status == New
    requires Permits(RoleOf(s, userId, s.bugs[bugId].projectId), FixBugs)
    requires s.bugs[bugId].assigneeId != Some(userId)
    ensures MarkFixed(s, bugId, userId).result.Success?
  {
  }

  /** No role can both fix and test bugs, so the user who marks a bug FIXED
      is never the one who marks it TESTED. */
  lemma FixerIsNotTester(s: State, bugId: Uuid, userId: Uuid)
    requires MarkFixed(s, bugId, userId).result.Success?
    ensures MarkTested(MarkFixed(s, bugId, userId).after, bugId, userId).result == Failure(CannotTestBugs)
  {
    var r := RoleOf(s, userId, s.bugs[bugId].projectId);
    SeparationOfDuties(r.value);
  }

  /** A bug's status never moves backwards, and a CLOSED bug stays CLOSED:
      assignment keeps the status and each transition advances it. */
  lemma StatusNeverRegresses(s: State, bugId: Uuid, assigneeId: Uuid, userId: Uuid)
    requires bugId in s.bugs && s.bugs[bugId].id == bugId
    ensures var before := s.bugs[bugId].status;
            AssignBug(s, bugId, assigneeId, userId).after.bugs[bugId].status == before &&
            Rank(MarkFixed(s, bugId, userId).after.bugs[bugId].status) >= Rank(before) &&
            Rank(MarkTested(s, bugId, userId).after.bugs[bugId].status) >= Rank(before) &&
            Rank(CloseBug(s, bugId, userId).after.bugs[bugId].status) >= Rank(before)
  {
  }

  /** CLOSED is terminal: no operation takes a bug out of it. */
  lemma ClosedIsTerminal(s: State, bugId: Uuid, assigneeId: Uuid, userId: Uuid)
    requires bugId in s.bugs && s.bugs[bugId].id == bugId && s.bugs[bugId].status == Closed
    ensures AssignBug(s, bugId, assigneeId, userId).after.bugs[bugId].status == Closed
    ensures MarkFixed(s, bugId, userId).after == s
    ensures MarkTested(s, bugId, userId).after == s
    ensures CloseBug(s, bugId, userId).after == s
  {
  }
}
