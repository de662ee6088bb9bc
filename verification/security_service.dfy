/**
 * SecurityService: the two authorization predicates. The authenticated principal's user id is an input,
 * `None` when nobody is signed in; the account lookup reads the account table.
 */
module Security {
  import opened Common
  import opened Accounts
  import opened BankAccountRepository

  /** `isOwner(userId)`. */
  predicate IsOwner(current: Option<string>, userId: string) {
    current.Some? && current.value == userId
  }

  /** `ownsAccount(accountNumber)`: false without a principal; true for an account that does not exist, so
      that the service behind the guard reports it as not found; otherwise whether the principal owns it. */
  function OwnsAccount(current: Option<string>, m: AccountTable, accountNumber: string): (r: bool)
    ensures current.None? ==> !r
    ensures current.Some? && accountNumber !in m ==> r
    ensures current.Some? && accountNumber in m ==> (r <==> m[accountNumber].ownerId == current.value)
  {
    if current.None? then false
    else match FindByAccountNumber(m, accountNumber)
      case None => true
      case Some(a) => a.ownerId == current.value
  }

  /** The lookup both services make before touching an account (`findAndValidateAccountOwnership`, and the
      same check written out in the account service): the stored account, NotFound when there is none,
      Forbidden when the caller is not its owner. */
  function ResolveOwnedAccount(m: AccountTable, accountNumber: string, userId: string): (r: Result<AccountRecord>)
    ensures r.Success? <==> accountNumber in m && m[accountNumber].ownerId == userId
    ensures r.Success? ==> r.value == m[accountNumber]
    ensures r.Failure? && accountNumber !in m ==> r.error == NotFound
    ensures r.Failure? && accountNumber in m ==> r.error == Forbidden
  {
    match FindByAccountNumber(m, accountNumber)
    case None => Failure(NotFound)
    case Some(a) => if a.ownerId != userId then Failure(Forbidden) else Success(a)
  }

  /** The service check agrees with the guard: an account that resolves is owned by the caller, and an account
      the guard refuses to a signed-in caller is forbidden; an account the guard lets through because it does
      not exist is then not found. */
  lemma ResolveAgreesWithOwnsAccount(m: AccountTable, accountNumber: string, userId: string)
    ensures ResolveOwnedAccount(m, accountNumber, userId).Success? ==> OwnsAccount(Some(userId), m, accountNumber)
    ensures !OwnsAccount(Some(userId), m, accountNumber) ==> ResolveOwnedAccount(m, accountNumber, userId) == Failure(Forbidden)
    ensures accountNumber !in m ==>
      OwnsAccount(Some(userId), m, accountNumber) && ResolveOwnedAccount(m, accountNumber, userId) == Failure(NotFound)
  {
  }

  /** For an existing account the two predicates agree: owning the account is being its owner. */
  lemma OwnsAccountIsOwnerOfOwner(current: Option<string>, m: AccountTable, accountNumber: string)
    requires accountNumber in m
    ensures OwnsAccount(current, m, accountNumber) <==> IsOwner(current, m[accountNumber].ownerId)
  {
  }
}
