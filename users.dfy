/** Registered users and their per-project memberships. */
module Users {

  import opened Common
  import opened Text
  import opened Roles

  /** A registered user; the e-mail address is kept exactly as given. */
  datatype User = User(id: Uuid, name: string, email: string) {
    /** What the record's constructor enforces. */
    predicate Valid() {
      !IsBlank(name)
    }
  }

  /** Creates a user under a fresh id; a blank name is refused. The e-mail
      address is neither checked nor normalised here. */
  function Create(id: Uuid, name: string, email: string): (r: Result<User>)
    ensures r.Success? <==> !IsBlank(name)
    ensures r.Failure? ==> r.error == BlankName
    ensures r.Success? ==> r.value.Valid() && r.value.id == id
    ensures r.Success? ==> r.value.name == name && r.value.email == email
  {
    if IsBlank(name) then Failure(BlankName) else Success(User(id, name, email))
  }

  /** The binding of one role to one user within one project. */
  datatype Membership = Membership(userId: Uuid, projectId: Uuid, role: Role) {
    predicate IsForProject(p: Uuid) {
      projectId == p
    }
  }

  function Of(userId: Uuid, projectId: Uuid, role: Role): (m: Membership)
    ensures m.userId == userId && m.projectId == projectId && m.role == role
    ensures m.IsForProject(projectId)
  {
    Membership(userId, projectId, role)
  }

  /** Whether a membership is for a project depends on its project alone. */
  lemma IsForProjectOnlyReadsProject(m: Membership, user: Uuid, role: Role, p: Uuid)
    ensures m.IsForProject(p) <==> m.projectId == p
    ensures m.IsForProject(p) == Of(user, m.projectId, role).IsForProject(p)
  {
  }
}
