/**
 * Users: the user record and its store, as far as the services use them. Users are kept in a map from user id
 * to record; `findByUserId`, `existsByEmail` and `findByEmail` are functions of the map, the inherited `save`
 * and `delete` are methods of `Store`. The password hash is an opaque string.
 */
module Users {
  import opened Common

  datatype Address = Address(
    line1: string,
    line2: Option<string>,
    line3: Option<string>,
    town: string,
    county: string,
    postcode: string)

  datatype User = User(
    userId: string,
    name: string,
    email: string,
    passwordHash: string,
    phoneNumber: string,
    address: Address,
    createdAt: nat,
    updatedAt: nat)

  type UserTable = map<string, User>

  /** Every user is stored under its own user id. */
  predicate KeyedById(m: UserTable) {
    forall k :: k in m ==> m[k].userId == k
  }

  /** No two stored users share an email address. */
  predicate UniqueEmails(m: UserTable) {
    forall a, b :: a in m && b in m && m[a].email == m[b].email ==> a == b
  }

  /** The invariant of the store. */
  predicate Consistent(m: UserTable) {
    KeyedById(m) && UniqueEmails(m)
  }

  /** `findByUserId`. */
  function FindByUserId(m: UserTable, userId: string): (r: Option<User>)
    ensures r.Some? <==> userId in m
    ensures r.Some? ==> r.value == m[userId]
  {
    if userId in m then Some(m[userId]) else None
  }

  /** `existsByEmail`. */
  predicate ExistsByEmail(m: UserTable, email: string) {
    exists k :: k in m && m[k].email == email
  }

  /** `findByEmail`: some stored user with that email, if there is one. */
  ghost function FindByEmail(m: UserTable, email: string): (r: Option<User>)
    ensures r.Some? <==> ExistsByEmail(m, email)
    ensures r.Some? ==> r.value in m.Values && r.value.email == email
  {
    if ExistsByEmail(m, email) then
      var k :| k in m && m[k].email == email; Some(m[k])
    else None
  }

  /** With unique emails, `findByEmail` returns the one user that has the address. */
  lemma FindByEmailUnique(m: UserTable, k: string)
    requires UniqueEmails(m) && k in m
    ensures FindByEmail(m, m[k].email) == Some(m[k])
  {
    var r := FindByEmail(m, m[k].email);
    var j :| j in m && m[j] == r.value;
  }

  /** The map after inserting a new user at time `now`, which stamps both dates; a user id that is already
      stored breaks the key's uniqueness and is refused. */
  function Inserted(m: UserTable, u: User, now: nat): (r: Result<UserTable>)
    ensures r.Failure? <==> u.userId in m
    ensures r.Failure? ==> r.error == ConstraintViolation
    ensures r.Success? ==> r.value == m[u.userId := u.(createdAt := now, updatedAt := now)]
  {
    if u.userId in m then Failure(ConstraintViolation)
    else Success(m[u.userId := u.(createdAt := now, updatedAt := now)])
  }

  /** The record written when `u` is saved over the stored `prior`: unchanged when nothing differs, otherwise
      with the creation date kept and the modification date stamped. */
  function Touched(prior: User, u: User, now: nat): (r: User)
    ensures r.(createdAt := u.createdAt, updatedAt := u.updatedAt) == u || r == prior
    ensures r.createdAt == prior.createdAt
    ensures r != prior ==> r.updatedAt == now
    ensures u.(createdAt := prior.createdAt, updatedAt := prior.updatedAt) == prior ==> r == prior
  {
    if u.(createdAt := prior.createdAt, updatedAt := prior.updatedAt) == prior then prior
    else u.(createdAt := prior.createdAt, updatedAt := now)
  }

  class Store {
    var users: UserTable

    ghost predicate Valid()
      reads this
    {
      Consistent(users)
    }

    constructor ()
      ensures Valid() && users == map[]
    {
      users := map[];
    }

    /** `save(user)` for a new user. */
    method Insert(u: User, now: nat) returns (outcome: Outcome)
      modifies this
      ensures outcome == Inserted(old(users), u, now).ToOutcome()
      ensures users == Inserted(old(users), u, now).GetOr(old(users))
      ensures old(Valid()) && !ExistsByEmail(old(users), u.email) ==> Valid()
    {
      var r := Inserted(users, u, now);
      if r.Failure? {
        return Fail(r.error);
      }
      users := r.value;
      outcome := Pass;
    }

    /** `save(user)` for the loaded user stored under `userId`: the row is written over. */
    method Update(userId: string, u: User, now: nat)
      requires userId in users
      modifies this
      ensures users == old(users)[userId := Touched(old(users)[userId], u, now)]
      ensures old(Valid()) && u.userId == userId && u.email == old(users)[userId].email ==> Valid()
    {
      users := users[userId := Touched(users[userId], u, now)];
    }

    /** `delete(user)`. */
    method Delete(userId: string)
      modifies this
      ensures users == old(users) - {userId}
      ensures old(Valid()) ==> Valid()
    {
      users := users - {userId};
    }
  }
}
