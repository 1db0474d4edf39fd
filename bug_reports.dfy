/** Bug reports of a project and their NEW -> FIXED -> TESTED -> CLOSED
    lifecycle. */
module BugReports {

  import opened Common
  import opened Text

  datatype BugStatus = New | Fixed | Tested | Closed

  /** Position along the lifecycle. */
  function Rank(s: BugStatus): nat {
    match s
    case New => 0
    case Fixed => 1
    case Tested => 2
    case Closed => 3
  }

  datatype BugReport = BugReport(
    id: Uuid,
    title: string,
    description: string,
    projectId: Uuid,
    reporterId: Uuid,
    assigneeId: Option<Uuid>,
    status: BugStatus,
    createdAt: Timestamp)
  {
    /** What the record's constructor enforces. */
    predicate Valid() {
      !IsBlank(title)
    }

    /** The fields that no change of assignee or status touches. */
    predicate SameOrigin(other: BugReport) {
      id == other.id && title == other.title && description == other.description &&
      projectId == other.projectId && reporterId == other.reporterId &&
      createdAt == other.createdAt
    }

    /** Assigns the bug, replacing any previous assignee, whatever its status. */
    function WithAssignee(assignee: Uuid): (b: BugReport)
      ensures b.SameOrigin(this) && b.Valid() == Valid()
      ensures b.assigneeId == Some(assignee) && b.status == status
    {
      this.(assigneeId := Some(assignee))
    }

    /** The transitions set their status whatever the current one is; the
        caller checks the expected prior status. */
    function MarkFixed(): (b: BugReport)
      ensures b.SameOrigin(this) && b.Valid() == Valid()
      ensures b.assigneeId == assigneeId && b.status == Fixed
    {
      this.(status := Fixed)
    }

    function MarkTested(): (b: BugReport)
      ensures b.SameOrigin(this) && b.Valid() == Valid()
      ensures b.assigneeId == assigneeId && b.status == Tested
    {
      this.(status := Tested)
    }

    function Close(): (b: BugReport)
      ensures b.SameOrigin(this) && b.Valid() == Valid()
      ensures b.assigneeId == assigneeId && b.status == Closed
    {
      this.(status := Closed)
    }
  }

  /** Creates a NEW, unassigned report at `createdAt`; a blank title is refused
      and a missing description becomes the empty string. */
  function Create(id: Uuid, title: string, description: Option<string>, projectId: Uuid,
                  reporterId: Uuid, createdAt: Timestamp): (r: Result<BugReport>)
    ensures r.Success? <==> !IsBlank(title)
    ensures r.Failure? ==> r.error == BlankTitle
    ensures r.Success? ==> r.value.Valid() && r.value.status == New && r.value.assigneeId == None
    ensures r.Success? ==> r.value.id == id && r.value.title == title && r.value.description == OrEmpty(description)
    ensures r.Success? ==> r.value.projectId == projectId && r.value.reporterId == reporterId
    ensures r.Success? ==> r.value.createdAt == createdAt
  {
    if IsBlank(title) then Failure(BlankTitle)
    else Success(BugReport(id, title, OrEmpty(description), projectId, reporterId, None, New, createdAt))
  }

  /** Each transition, applied from the status it expects, advances by one step. */
  lemma TransitionsAdvanceOneStep(b: BugReport)
    ensures b.status == New ==> Rank(b.MarkFixed().status) == Rank(b.status) + 1
    ensures b.status == Fixed ==> Rank(b.MarkTested().status) == Rank(b.status) + 1
    ensures b.status == Tested ==> Rank(b.Close().status) == Rank(b.status) + 1
  {
  }
}
