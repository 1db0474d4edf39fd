/** Look-up of a project's ACTIVE milestone. */
module MilestoneRepository {

  import opened Common
  import opened Milestones
  import Repository

  /** Some stored milestone of the project is ACTIVE. */
  predicate HasActive(milestones: map<Uuid, Milestone>, projectId: Uuid) {
    exists k :: k in milestones && milestones[k].projectId == projectId && milestones[k].status == Active
  }

  method FindActiveByProjectId(milestones: map<Uuid, Milestone>, projectId: Uuid) returns (r: Option<Milestone>)
    ensures r.Some? <==> HasActive(milestones, projectId)
    ensures r.Some? ==> r.value in milestones.Values && r.value.projectId == projectId && r.value.status == Active
  {
    var isActive := (m: Milestone) => m.projectId == projectId && m.status == Active;
    r := Repository.FindFirst(milestones, isActive);
    if HasActive(milestones, projectId) {
      var k :| k in milestones && milestones[k].projectId == projectId && milestones[k].status == Active;
      assert isActive(milestones[k]);
    }
    if !HasActive(milestones, projectId) {
      forall k | k in milestones ensures !isActive(milestones[k]) {
      }
    }
  }

  method HasActiveMilestone(milestones: map<Uuid, Milestone>, projectId: Uuid) returns (b: bool)
    ensures b <==> HasActive(milestones, projectId)
  {
    var found := FindActiveByProjectId(milestones, projectId);
    b := found.Some?;
  }
}
