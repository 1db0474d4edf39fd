/** A project and its team roster: one manager, an optional team lead and
    the sets of developers and testers. */
module Projects {

  import opened Common
  import opened Text

  datatype Project = Project(
    id: Uuid,
    name: string,
    description: string,
    managerId: Uuid,
    teamLeadId: Option<Uuid>,
    developerIds: set<Uuid>,
    testerIds: set<Uuid>)
  {
    /** What the record's constructor enforces. */
    predicate Valid() {
      !IsBlank(name)
    }

    /** The fields no roster change may touch. */
    predicate SameIdentity(other: Project) {
      id == other.id && name == other.name && description == other.description &&
      managerId == other.managerId
    }

    /** The manager holds no other post in the team: not the lead, not a
        developer, not a tester. */
    predicate ManagerOffTeam() {
      teamLeadId != Some(managerId) && managerId !in developerIds && managerId !in testerIds
    }

    /** Developers are the developer set plus the team lead. */
    predicate IsDeveloper(userId: Uuid)
      ensures teamLeadId == Some(userId) ==> IsDeveloper(userId)
      ensures userId in developerIds ==> IsDeveloper(userId)
      ensures IsDeveloper(userId) && userId !in developerIds ==> teamLeadId == Some(userId)
    {
      userId in developerIds || teamLeadId == Some(userId)
    }

    /** Makes `lead` the team lead, replacing any previous one. */
    function WithTeamLead(lead: Uuid): (p: Project)
      ensures p.SameIdentity(this) && p.Valid() == Valid()
      ensures p.teamLeadId == Some(lead)
      ensures p.developerIds == developerIds && p.testerIds == testerIds
      ensures forall u :: p.IsDeveloper(u) <==> u in developerIds || u == lead
    {
      this.(teamLeadId := Some(lead))
    }

    function WithDeveloper(developer: Uuid): (p: Project)
      ensures p.SameIdentity(this) && p.Valid() == Valid()
      ensures p.developerIds == developerIds + {developer}
      ensures p.teamLeadId == teamLeadId && p.testerIds == testerIds
      ensures forall u :: p.IsDeveloper(u) <==> IsDeveloper(u) || u == developer
    {
      this.(developerIds := developerIds + {developer})
    }

    function WithTester(tester: Uuid): (p: Project)
      ensures p.SameIdentity(this) && p.Valid() == Valid()
      ensures p.testerIds == testerIds + {tester}
      ensures p.teamLeadId == teamLeadId && p.developerIds == developerIds
      ensures forall u :: p.IsDeveloper(u) <==> IsDeveloper(u)
    {
      this.(testerIds := testerIds + {tester})
    }
  }

  /** Creates a project managed by `managerId` with an empty team; a blank name
      is refused and a missing description becomes the empty string. */
  function Create(id: Uuid, name: string, description: Option<string>, managerId: Uuid): (r: Result<Project>)
    ensures r.Success? <==> !IsBlank(name)
    ensures r.Failure? ==> r.error == BlankName
    ensures r.Success? ==> r.value.Valid() && r.value.id == id && r.value.name == name
    ensures r.Success? ==> r.value.description == OrEmpty(description)
    ensures r.Success? ==> r.value.managerId == managerId && r.value.teamLeadId == None
    ensures r.Success? ==> r.value.developerIds == {} && r.value.testerIds == {}
    ensures r.Success? ==> forall u :: !r.value.IsDeveloper(u)
    ensures r.Success? ==> r.value.ManagerOffTeam()
  {
    if IsBlank(name) then Failure(BlankName)
    else Success(Project(id, name, OrEmpty(description), managerId, None, {}, {}))
  }

  /** A roster change keeps the manager off the team exactly when the
      candidate is not the manager (the lead is replaced, so the old lead
      no longer matters). */
  lemma RosterChangesKeepManagerOffTeam(p: Project, u: Uuid)
    ensures p.WithTeamLead(u).ManagerOffTeam() <==>
            u != p.managerId && p.managerId !in p.developerIds && p.managerId !in p.testerIds
    ensures p.WithDeveloper(u).ManagerOffTeam() <==> p.ManagerOffTeam() && u != p.managerId
    ensures p.WithTester(u).ManagerOffTeam() <==> p.ManagerOffTeam() && u != p.managerId
  {
  }

  /** Adding a tester who is already one leaves the tester set as it was. */
  lemma WithTesterIdempotent(p: Project, tester: Uuid)
    requires tester in p.testerIds
    ensures p.WithTester(tester) == p
  {
  }

  /** The team lead counts as a developer only while holding the post: after
      a replacement the previous lead is a developer only if listed as one. */
  lemma ReplacedLeadIsNoLongerDeveloper(p: Project, lead: Uuid)
    requires p.teamLeadId.Some? && p.teamLeadId.value != lead
    requires p.teamLeadId.value !in p.developerIds
    ensures p.IsDeveloper(p.teamLeadId.value)
    ensures !p.WithTeamLead(lead).IsDeveloper(p.teamLeadId.value)
  {
  }
}
