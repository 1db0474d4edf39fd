/** Queries over the tickets of one milestone. */
module TicketRepository {

  import opened Common
  import opened Tickets
  import opened Repository

  function FindByMilestoneId(tickets: map<Uuid, Ticket>, milestoneId: Uuid): (r: map<Uuid, Ticket>)
    ensures forall k :: k in r <==> k in tickets && tickets[k].milestoneId == milestoneId
    ensures forall k :: k in r ==> r[k] == tickets[k]
  {
    FindAll(tickets, (t: Ticket) => t.milestoneId == milestoneId)
  }

  predicate Incomplete(t: Ticket) {
    !t.IsCompleted()
  }

  /** The number of the milestone's tickets that are not DONE; it is zero
      exactly when every ticket of the milestone is DONE. */
  function CountIncomplete(tickets: map<Uuid, Ticket>, milestoneId: Uuid): (n: nat)
    ensures n == |set k | k in tickets && tickets[k].milestoneId == milestoneId && tickets[k].status != Done|
    ensures n <= |FindByMilestoneId(tickets, milestoneId)|
    ensures n == 0 <==> forall k :: k in tickets && tickets[k].milestoneId == milestoneId ==> tickets[k].status == Done
  {
    var ofMilestone := FindByMilestoneId(tickets, milestoneId);
    FindAllNoLarger(ofMilestone, Incomplete);
    NoneIncompleteIffAllDone(tickets, milestoneId);
    var incomplete := FindAll(ofMilestone, Incomplete);
    assert incomplete.Keys ==
           set k | k in tickets && tickets[k].milestoneId == milestoneId && tickets[k].status != Done;
    assert |incomplete| == |incomplete.Keys|;
    |incomplete|
  }

  lemma NoneIncompleteIffAllDone(tickets: map<Uuid, Ticket>, milestoneId: Uuid)
    ensures |FindAll(FindByMilestoneId(tickets, milestoneId), Incomplete)| == 0 <==>
            forall k :: k in tickets && tickets[k].milestoneId == milestoneId ==> tickets[k].status == Done
  {
    var ofMilestone := FindByMilestoneId(tickets, milestoneId);
    if |FindAll(ofMilestone, Incomplete)| == 0 {
      forall k | k in tickets && tickets[k].milestoneId == milestoneId ensures tickets[k].status == Done {
        assert k in ofMilestone;
        assert !Incomplete(ofMilestone[k]);
      }
    } else {
      var k := FindAllWitness(ofMilestone, Incomplete);
      assert tickets[k].status != Done;
    }
  }

  /** Ticket counts of the milestone grouped by status; statuses that do not
      occur are absent. */
  function GetStatusStats(tickets: map<Uuid, Ticket>, milestoneId: Uuid): (stats: map<TicketStatus, nat>)
    ensures forall s :: s in stats <==>
              exists k :: k in tickets && tickets[k].milestoneId == milestoneId && tickets[k].status == s
    ensures forall s :: s in stats ==> stats[s] >= 1
  {
    var ofMilestone := FindByMilestoneId(tickets, milestoneId);
    var stats := GroupCount(ofMilestone, (t: Ticket) => t.status);
    assert forall s :: s in stats <==>
             exists k :: k in tickets && tickets[k].milestoneId == milestoneId && tickets[k].status == s by {
      forall s ensures s in stats <==>
                 exists k :: k in tickets && tickets[k].milestoneId == milestoneId && tickets[k].status == s {
        if exists k :: k in tickets && tickets[k].milestoneId == milestoneId && tickets[k].status == s {
          var k :| k in tickets && tickets[k].milestoneId == milestoneId && tickets[k].status == s;
          assert k in ofMilestone;
        }
      }
    }
    stats
  }

  /** The count for each status is the number of the milestone's tickets in it. */
  lemma StatusStatsCount(tickets: map<Uuid, Ticket>, milestoneId: Uuid, s: TicketStatus)
    ensures CountOf(GetStatusStats(tickets, milestoneId), s) ==
            |set k | k in tickets && tickets[k].milestoneId == milestoneId && tickets[k].status == s|
  {
    var ofMilestone := FindByMilestoneId(tickets, milestoneId);
    GroupCountAt(ofMilestone, (t: Ticket) => t.status, s);
    assert KeysWith(ofMilestone, (t: Ticket) => t.status, s) ==
           set k | k in tickets && tickets[k].milestoneId == milestoneId && tickets[k].status == s;
  }

  /** The counts add up to the number of the milestone's tickets. */
  lemma StatusStatsTotal(tickets: map<Uuid, Ticket>, milestoneId: Uuid)
    ensures SumOver(GetStatusStats(tickets, milestoneId), [New, Accepted, InProgress, Done]) ==
            |FindByMilestoneId(tickets, milestoneId)|
  {
    var ofMilestone := FindByMilestoneId(tickets, milestoneId);
    var all := [New, Accepted, InProgress, Done];
    forall k | k in ofMilestone ensures ofMilestone[k].status in all {
      match ofMilestone[k].status
      case New => assert all[0] == New;
      case Accepted => assert all[1] == Accepted;
      case InProgress => assert all[2] == InProgress;
      case Done => assert all[3] == Done;
    }
    GroupCountTotal(ofMilestone, (t: Ticket) => t.status, all);
  }
}
