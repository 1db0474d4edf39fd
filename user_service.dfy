/** Registration of users: the address must be new ignoring case, then the
    name must not be blank. */
module UserService {

  import opened Common
  import opened Text
  import opened Users
  import opened Store
  import opened UserRepository
  import Repository

  /** Registers a user under the fresh id `id`. The duplicate-address check
      comes before the name check; a refusal stores nothing. */
  function Register(s: State, id: Uuid, name: string, email: string): (o: Outcome<User>)
    ensures o.result.Success? <==> !EmailTaken(s.users, email) && !IsBlank(name)
    ensures EmailTaken(s.users, email) ==> o.result == Failure(DuplicateEmail(email))
    ensures !EmailTaken(s.users, email) && IsBlank(name) ==> o.result == Failure(BlankName)
    ensures o.result.Failure? ==> o.after == s
    ensures o.result.Success? ==>
              o.result.value == User(id, name, email) &&
              o.after == s.(users := s.users[id := o.result.value])
    ensures o.result.Success? ==> FindById(o.after, id) == Some(o.result.value)
  {
    if EmailTaken(s.users, email) then
      Outcome(Failure(DuplicateEmail(email)), s)
    else
      match Users.Create(id, name, email)
      case Failure(e) => Outcome(Failure(e), s)
      case Success(user) => Outcome(Success(user), s.(users := Repository.Save(s.users, user.id, user)))
  }

  function FindById(s: State, userId: Uuid): (r: Option<User>)
    ensures r.Some? <==> userId in s.users
    ensures r.Some? ==> r.value == s.users[userId]
  {
    Repository.FindById(s.users, userId)
  }

  /** Registration keeps the invariant, in particular that no two users have
      addresses equal ignoring case. */
  lemma RegisterKeepsInv(s: State, id: Uuid, name: string, email: string)
    requires Inv(s) && id !in s.users
    ensures Inv(Register(s, id, name, email).after)
  {
    var o := Register(s, id, name, email);
    if o.result.Success? {
      var u := o.result.value;
      assert !EmailTaken(s.users, u.email);
      AddUserKeepsInv(s, u);
    }
  }

  /** After a successful registration the address is taken in every spelling
      that differs only in case, so registering it again is refused. */
  lemma SecondRegistrationRefused(s: State, id: Uuid, name: string, email: string,
                                  id2: Uuid, name2: string, email2: string)
    requires EqualsIgnoreCase(email, email2)
    requires Register(s, id, name, email).result.Success?
    ensures Register(Register(s, id, name, email).after, id2, name2, email2).result ==
            Failure(DuplicateEmail(email2))
  {
    var after := Register(s, id, name, email).after;
    assert EqualsIgnoreCase(after.users[id].email, email2);
  }

  /** A refusal for a blank name stores nothing, so the same address can be
      registered afterwards with a proper name. */
  lemma BlankNameLeavesAddressFree(s: State, id: Uuid, name: string, email: string,
                                   id2: Uuid, name2: string)
    requires !EmailTaken(s.users, email) && IsBlank(name) && !IsBlank(name2)
    ensures Register(s, id, name, email).result == Failure(BlankName)
    ensures Register(Register(s, id, name, email).after, id2, name2, email).result.Success?
  {
  }
}
