/** Memberships stored under the pair (user, project): at most one role per
    user and project, a later save for the same pair replacing the earlier. */
module MembershipRepository {

  import opened Common
  import opened Roles
  import opened Users

  type Storage = map<(Uuid, Uuid), Membership>

  /** The storage key of a membership. */
  function Key(userId: Uuid, projectId: Uuid): (Uuid, Uuid) {
    (userId, projectId)
  }

  function Save(storage: Storage, m: Membership): (r: Storage)
    ensures Find(r, m.userId, m.projectId) == Some(m)
    ensures forall u, p :: (u, p) != (m.userId, m.projectId) ==> Find(r, u, p) == Find(storage, u, p)
  {
    storage[Key(m.userId, m.projectId) := m]
  }

  /** The membership stored for the user and project, if any. */
  function Find(storage: Storage, userId: Uuid, projectId: Uuid): (r: Option<Membership>)
    ensures r.Some? <==> (userId, projectId) in storage
    ensures r.Some? ==> r.value == storage[(userId, projectId)]
  {
    var k := Key(userId, projectId);
    if k in storage then Some(storage[k]) else None
  }

  /** The role of the stored membership, none when there is no membership. */
  function GetRole(storage: Storage, userId: Uuid, projectId: Uuid): (r: Option<Role>)
    ensures r.None? <==> Find(storage, userId, projectId).None?
    ensures r.Some? ==> r.value == Find(storage, userId, projectId).value.role
  {
    match Find(storage, userId, projectId)
    case None => None
    case Some(m) => Some(m.role)
  }

  /** The stored memberships of a project. */
  function FindByProjectId(storage: Storage, projectId: Uuid): (r: Storage)
    ensures forall k :: k in r <==> k in storage && storage[k].projectId == projectId
    ensures forall k :: k in r ==> r[k] == storage[k]
  {
    map k | k in storage && storage[k].IsForProject(projectId) :: storage[k]
  }

  /** Saving twice for the same user and project keeps only the later membership. */
  lemma LaterSaveWins(storage: Storage, m1: Membership, m2: Membership)
    requires m1.userId == m2.userId && m1.projectId == m2.projectId
    ensures Save(Save(storage, m1), m2) == Save(storage, m2)
    ensures GetRole(Save(Save(storage, m1), m2), m2.userId, m2.projectId) == Some(m2.role)
  {
  }
}
