/** Bug counts of one project grouped by status. */
module BugReportRepository {

  import opened Common
  import opened BugReports
  import opened Repository

  function ProjectBugs(bugs: map<Uuid, BugReport>, projectId: Uuid): (r: map<Uuid, BugReport>)
    ensures forall k :: k in r <==> k in bugs && bugs[k].projectId == projectId
    ensures forall k :: k in r ==> r[k] == bugs[k]
  {
    FindAll(bugs, (b: BugReport) => b.projectId == projectId)
  }

  /** Bug counts of the project grouped by status; statuses that do not occur
      are absent, so every count present is at least one. */
  function GetStatusStats(bugs: map<Uuid, BugReport>, projectId: Uuid): (stats: map<BugStatus, nat>)
    ensures forall s :: s in stats <==>
              exists k :: k in bugs && bugs[k].projectId == projectId && bugs[k].status == s
    ensures forall s :: s in stats ==> stats[s] >= 1
  {
    var ofProject := ProjectBugs(bugs, projectId);
    var stats := GroupCount(ofProject, (b: BugReport) => b.status);
    assert forall s :: s in stats <==>
             exists k :: k in bugs && bugs[k].projectId == projectId && bugs[k].status == s by {
      forall s ensures s in stats <==>
                 exists k :: k in bugs && bugs[k].projectId == projectId && bugs[k].status == s {
        if exists k :: k in bugs && bugs[k].projectId == projectId && bugs[k].status == s {
          var k :| k in bugs && bugs[k].projectId == projectId && bugs[k].status == s;
          assert k in ofProject;
        }
      }
    }
    stats
  }

  /** The count for each status is the number of the project's bugs in it;
      bugs of other projects are never counted. */
  lemma StatusStatsCount(bugs: map<Uuid, BugReport>, projectId: Uuid, s: BugStatus)
    ensures CountOf(GetStatusStats(bugs, projectId), s) ==
            |set k | k in bugs && bugs[k].projectId == projectId && bugs[k].status == s|
  {
    var ofProject := ProjectBugs(bugs, projectId);
    GroupCountAt(ofProject, (b: BugReport) => b.status, s);
    assert KeysWith(ofProject, (b: BugReport) => b.status, s) ==
           set k | k in bugs && bugs[k].projectId == projectId && bugs[k].status == s;
  }

  /** The counts add up to the number of the project's bugs. */
  lemma StatusStatsTotal(bugs: map<Uuid, BugReport>, projectId: Uuid)
    ensures SumOver(GetStatusStats(bugs, projectId), [New, Fixed, Tested, Closed]) ==
            |ProjectBugs(bugs, projectId)|
  {
    var ofProject := ProjectBugs(bugs, projectId);
    var all := [New, Fixed, Tested, Closed];
    forall k | k in ofProject ensures ofProject[k].status in all {
      match ofProject[k].status
      case New => assert all[0] == New;
      case Fixed => assert all[1] == Fixed;
      case Tested => assert all[2] == Tested;
      case Closed => assert all[3] == Closed;
    }
    GroupCountTotal(ofProject, (b: BugReport) => b.status, all);
  }
}
