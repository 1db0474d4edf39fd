/** Look-up of users by e-mail address, ignoring case. */
module UserRepository {

  import opened Common
  import opened Text
  import opened Users
  import Repository

  /** Some stored user's address equals `email` ignoring case. */
  predicate EmailTaken(users: map<Uuid, User>, email: string) {
    exists k :: k in users && EqualsIgnoreCase(users[k].email, email)
  }

  method FindByEmail(users: map<Uuid, User>, email: string) returns (r: Option<User>)
    ensures r.Some? <==> EmailTaken(users, email)
    ensures r.Some? ==> r.value in users.Values && EqualsIgnoreCase(r.value.email, email)
  {
    var matches := (u: User) => EqualsIgnoreCase(u.email, email);
    r := Repository.FindFirst(users, matches);
    if EmailTaken(users, email) {
      var k :| k in users && EqualsIgnoreCase(users[k].email, email);
      assert matches(users[k]);
    }
    if !EmailTaken(users, email) {
      forall k | k in users ensures !matches(users[k]) {
      }
    }
  }

  method ExistsByEmail(users: map<Uuid, User>, email: string) returns (b: bool)
    ensures b <==> EmailTaken(users, email)
  {
    var found := FindByEmail(users, email);
    b := found.Some?;
  }

  /** Addresses that differ only in case are taken together or not at all. */
  lemma EmailTakenIgnoresCase(users: map<Uuid, User>, a: string, b: string)
    requires EqualsIgnoreCase(a, b)
    ensures EmailTaken(users, a) <==> EmailTaken(users, b)
  {
    if EmailTaken(users, a) {
      var k :| k in users && EqualsIgnoreCase(users[k].email, a);
      EqualsIgnoreCaseIsEquivalence(users[k].email, a, b);
    }
    if EmailTaken(users, b) {
      var k :| k in users && EqualsIgnoreCase(users[k].email, b);
      EqualsIgnoreCaseIsEquivalence(users[k].email, b, a);
    }
  }
}
