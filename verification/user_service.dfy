/**
 * UserService: signing up, reading, updating and deleting users. The encoded password and the UUID behind the
 * new user id are inputs, as is the clock reading. Deleting asks the account service whether the user still
 * has accounts.
 */
module UserService {
  import opened Common
  import opened Text
  import opened IdGenerator
  import opened Requests
  import opened Users
  import AR = BankAccountRepository
  import AS = AccountService

  /** The user as the service shows it: everything but the password hash. */
  datatype UserResponse = UserResponse(
    id: string,
    name: string,
    email: string,
    phoneNumber: string,
    address: Address,
    createdAt: nat,
    updatedAt: nat)

  function UserResponseOf(u: User): UserResponse {
    UserResponse(u.userId, u.name, u.email, u.phoneNumber, u.address, u.createdAt, u.updatedAt)
  }

  /** What a change to the user store does. */
  datatype UserChange = UserChange(users: UserTable, result: Result<User>)

  /** `createUser` as a function of the store before it: a taken email is a conflict; otherwise the user is
      built from the generated id, the request and the encoded password (a missing address dereferences null)
      and inserted. */
  function Register(m: UserTable, request: CreateUserRequest, passwordHash: string, uuid: Uuid, now: nat): UserChange {
    if ExistsByEmail(m, request.email) then UserChange(m, Failure(Conflict))
    else if request.address.None? then UserChange(m, Failure(NullReference))
    else
      var u := User(UserId(uuid), request.name, request.email, passwordHash, request.phoneNumber,
                    request.address.value, 0, 0);
      match Inserted(m, u, now)
      case Failure(e) => UserChange(m, Failure(e))
      case Success(m2) => UserChange(m2, Success(m2[u.userId]))
  }

  /** A taken email is refused with Conflict and nothing is saved. */
  lemma RegisterDuplicateEmail(m: UserTable, request: CreateUserRequest, passwordHash: string, uuid: Uuid, now: nat)
    requires ExistsByEmail(m, request.email)
    ensures Register(m, request, passwordHash, uuid, now) == UserChange(m, Failure(Conflict))
  {
  }

  /** A registered user is stored under the generated id with the request's name, email, phone and address and
      the encoded password; nobody else changes, the store stays consistent, and the user can then be found
      by the email. */
  lemma Registered(m: UserTable, request: CreateUserRequest, passwordHash: string, uuid: Uuid, now: nat)
    requires Consistent(m)
    ensures var c := Register(m, request, passwordHash, uuid, now);
      && (c.result.Failure? ==> c.users == m)
      && (c.result.Success? ==>
            var u := c.result.value;
            && u.userId == UserId(uuid) && IsPrefixedHexId(u.userId, "usr-")
            && u.userId !in m
            && c.users == m[u.userId := u]
            && u.name == request.name && u.email == request.email && u.phoneNumber == request.phoneNumber
            && request.address == Some(u.address) && u.passwordHash == passwordHash
            && u.createdAt == now && u.updatedAt == now
            && Consistent(c.users)
            && FindByEmail(c.users, request.email) == Some(u))
  {
    UserIdFormat(uuid);
    var c := Register(m, request, passwordHash, uuid, now);
    if c.result.Success? {
      var u := c.result.value;
      assert Consistent(c.users);
      FindByEmailUnique(c.users, u.userId);
    }
  }

  /** `getUserById`. */
  function GetUserById(m: UserTable, userId: string): (r: Result<UserResponse>)
    ensures r.Failure? <==> userId !in m
    ensures r.Failure? ==> r.error == NotFound
    ensures r.Success? ==> r.value == UserResponseOf(m[userId])
  {
    match FindByUserId(m, userId)
    case None => Failure(NotFound)
    case Some(u) => Success(UserResponseOf(u))
  }

  /** `findByEmail` (the service's own lookup, used by sign-in). */
  ghost function FindUserByEmail(m: UserTable, email: string): (r: Result<User>)
    ensures r.Failure? <==> !ExistsByEmail(m, email)
    ensures r.Failure? ==> r.error == NotFound
    ensures r.Success? ==> r.value in m.Values && r.value.email == email
  {
    match FindByEmail(m, email)
    case None => Failure(NotFound)
    case Some(u) => Success(u)
  }

  /** The partial update of `updateUser`: a provided (present, non-blank) name or phone number replaces the old
      one, a present address replaces the old one. */
  function Revised(u: User, request: UpdateUserRequest): (r: User)
    ensures r.userId == u.userId && r.email == u.email && r.passwordHash == u.passwordHash
    ensures r.createdAt == u.createdAt && r.updatedAt == u.updatedAt
    ensures r.name == (if AS.Provided(request.name) then request.name.value else u.name)
    ensures r.phoneNumber == (if AS.Provided(request.phoneNumber) then request.phoneNumber.value else u.phoneNumber)
    ensures r.address == (if request.address.Some? then request.address.value else u.address)
  {
    var named := if AS.Provided(request.name) then u.(name := request.name.value) else u;
    var phoned := if AS.Provided(request.phoneNumber) then named.(phoneNumber := request.phoneNumber.value) else named;
    if request.address.Some? then phoned.(address := request.address.value) else phoned
  }

  /** `updateUser` as a function of the store before it. The response is built from the entity as the update
      leaves it: the modification date is stamped only when the change is flushed, after the response. */
  function Revise(m: UserTable, userId: string, request: UpdateUserRequest, now: nat): UserChange {
    match FindByUserId(m, userId)
    case None => UserChange(m, Failure(NotFound))
    case Some(u) =>
      var revised := Revised(u, request);
      UserChange(m[userId := Touched(u, revised, now)], Success(revised))
  }

  /** An unknown id is not found and nothing changes. Otherwise only that user changes, never in id, email or
      password, and the store stays consistent; the stored row gets a new modification date exactly when
      something changed, while the response still shows the previous one, and an update that provides nothing
      leaves the store as it was. */
  lemma ReviseEffect(m: UserTable, userId: string, request: UpdateUserRequest, now: nat)
    requires Consistent(m)
    ensures userId !in m ==> Revise(m, userId, request, now) == UserChange(m, Failure(NotFound))
    ensures var c := Revise(m, userId, request, now);
      c.result.Success? ==>
        && userId in m && c.result.value == Revised(m[userId], request)
        && userId in c.users && c.users == m[userId := c.users[userId]]
        && c.result.value.userId == userId && c.result.value.email == m[userId].email
        && c.result.value.passwordHash == m[userId].passwordHash
        && c.users[userId].(updatedAt := c.result.value.updatedAt) == c.result.value
        && (c.result.value != m[userId] ==> c.users[userId].updatedAt == now)
        && c.result.value.updatedAt == m[userId].updatedAt
        && Consistent(c.users)
    ensures userId in m && !AS.Provided(request.name) && !AS.Provided(request.phoneNumber) && request.address.None?
            ==> Revise(m, userId, request, now).users == m
  {
    if userId in m {
      var u := m[userId];
      var c := Revise(m, userId, request, now);
      assert c.result.value.email == u.email;
      if !AS.Provided(request.name) && !AS.Provided(request.phoneNumber) && request.address.None? {
        assert Revised(u, request) == u;
        assert c.users == m[userId := u];
      }
    }
  }

  /** `deleteUser` as a function of the stores before it: an unknown user is not found, a user who still has
      accounts is a conflict, otherwise the user is removed. */
  function Unregister(m: UserTable, accounts: AR.AccountTable, userId: string): (c: UserChange)
    ensures c.result.Failure? ==> c.users == m
    ensures c.result.Success? ==> c.users == m - {userId}
  {
    match FindByUserId(m, userId)
    case None => UserChange(m, Failure(NotFound))
    case Some(u) =>
      if AS.HasAccounts(accounts, userId) then UserChange(m, Failure(Conflict))
      else UserChange(m - {userId}, Success(u))
  }

  /** A user who owns an account cannot be deleted; a stored user who owns none is removed. */
  lemma UnregisterEffect(m: UserTable, accounts: AR.AccountTable, userId: string)
    ensures userId !in m ==> Unregister(m, accounts, userId).result == Failure(NotFound)
    ensures userId in m && (exists k :: k in accounts && accounts[k].ownerId == userId)
            ==> Unregister(m, accounts, userId) == UserChange(m, Failure(Conflict))
    ensures userId in m && (forall k :: k in accounts ==> accounts[k].ownerId != userId)
            ==> Unregister(m, accounts, userId) == UserChange(m - {userId}, Success(m[userId]))
  {
    AS.HasAccountsIffOwnsSome(accounts, userId);
  }

  class UserService {
    const users: Store
    const accountService: AS.AccountService

    constructor (users: Store, accountService: AS.AccountService)
      ensures this.users == users && this.accountService == accountService
    {
      this.users := users;
      this.accountService := accountService;
    }

    /** `createUser`. */
    method CreateUser(request: CreateUserRequest, passwordHash: string, uuid: Uuid, now: nat)
      returns (r: Result<UserResponse>)
      modifies users
      ensures var c := Register(old(users.users), request, passwordHash, uuid, now);
        && users.users == c.users
        && r == (if c.result.Success? then Success(UserResponseOf(c.result.value)) else Failure(c.result.error))
      ensures old(users.Valid()) ==> users.Valid()
    {
      if ExistsByEmail(users.users, request.email) {
        return Failure(Conflict);
      }
      var userId := UserId(uuid);
      if request.address.None? {
        return Failure(NullReference);
      }
      var user := User(userId, request.name, request.email, passwordHash, request.phoneNumber,
                       request.address.value, 0, 0);
      var outcome := users.Insert(user, now);
      if outcome.Fail? {
        return Failure(outcome.error);
      }
      r := Success(UserResponseOf(users.users[userId]));
    }

    /** `updateUser`: applies the provided fields one by one and saves the user. */
    method UpdateUser(userId: string, request: UpdateUserRequest, now: nat) returns (r: Result<UserResponse>)
      modifies users
      ensures var c := Revise(old(users.users), userId, request, now);
        && users.users == c.users
        && r == (if c.result.Success? then Success(UserResponseOf(c.result.value)) else Failure(c.result.error))
      ensures old(users.Valid()) ==> users.Valid()
    {
      var found := FindByUserId(users.users, userId);
      if found.None? {
        return Failure(NotFound);
      }
      var user := found.value;
      if request.name.Some? && !IsBlank(request.name.value) {
        user := user.(name := request.name.value);
      }
      if request.phoneNumber.Some? && !IsBlank(request.phoneNumber.value) {
        user := user.(phoneNumber := request.phoneNumber.value);
      }
      if request.address.Some? {
        user := user.(address := request.address.value);
      }
      assert user == Revised(found.value, request);
      users.Update(userId, user, now);
      r := Success(UserResponseOf(user));
    }

    /** `deleteUser`. */
    method DeleteUser(userId: string) returns (outcome: Outcome)
      modifies users
      ensures var c := Unregister(old(users.users), accountService.accounts.accounts, userId);
        users.users == c.users && outcome == c.result.ToOutcome()
      ensures old(users.Valid()) ==> users.Valid()
    {
      var found := FindByUserId(users.users, userId);
      if found.None? {
        return Fail(NotFound);
      }
      if AS.HasAccounts(accountService.accounts.accounts, userId) {
        return Fail(Conflict);
      }
      users.Delete(userId);
      outcome := Pass;
    }
  }
}
