/**
 * BankAccountRepository: the account store, a map from account number to row. The declared finder, exists and
 * count queries are functions of the map; the inherited `save` and `delete` are methods of `Store`. Saving
 * applies the auditing timestamps and the column constraints of the table.
 */
module BankAccountRepository {
  import opened Common
  import opened Accounts

  type AccountTable = map<string, AccountRecord>

  /** Every row is stored under its own account number, which makes account numbers unique. */
  predicate KeyedByNumber(m: AccountTable) {
    forall k :: k in m ==> m[k].accountNumber == k
  }

  /** Every row satisfies the table's column constraints. */
  predicate AllFitColumns(m: AccountTable) {
    forall k :: k in m ==> FitsColumns(m[k])
  }

  /** The invariant of the store. */
  predicate Consistent(m: AccountTable) {
    KeyedByNumber(m) && AllFitColumns(m)
  }

  /** `findByAccountNumber`. */
  function FindByAccountNumber(m: AccountTable, accountNumber: string): (r: Option<AccountRecord>)
    ensures r.Some? <==> accountNumber in m
    ensures r.Some? ==> r.value == m[accountNumber]
    ensures KeyedByNumber(m) && r.Some? ==> r.value.accountNumber == accountNumber
  {
    if accountNumber in m then Some(m[accountNumber]) else None
  }

  /** `findByUserUserId`, keyed by account number (the list's order is unspecified). */
  function FindByUserUserId(m: AccountTable, userId: string): AccountTable {
    map k | k in m && m[k].ownerId == userId :: m[k]
  }

  /** `existsByAccountNumber`. */
  predicate ExistsByAccountNumber(m: AccountTable, accountNumber: string) {
    accountNumber in m
  }

  /** `countByUserUserId`. */
  function CountByUserUserId(m: AccountTable, userId: string): nat {
    |set k | k in m && m[k].ownerId == userId|
  }

  /** The owner's listing holds exactly that user's rows, unchanged, and nothing else. */
  lemma FindByUserUserIdExactly(m: AccountTable, userId: string)
    ensures forall k :: k in FindByUserUserId(m, userId) <==> k in m && m[k].ownerId == userId
    ensures forall k :: k in FindByUserUserId(m, userId) ==> FindByUserUserId(m, userId)[k] == m[k]
    ensures (forall k :: k in m ==> m[k].ownerId != userId) ==> FindByUserUserId(m, userId) == map[]
  {
  }

  /** The count is the length of the owner's listing. */
  lemma CountMatchesListing(m: AccountTable, userId: string)
    ensures CountByUserUserId(m, userId) == |FindByUserUserId(m, userId)|
  {
    assert FindByUserUserId(m, userId).Keys == set k | k in m && m[k].ownerId == userId;
  }

  /** The count is positive exactly when the user owns some account. */
  lemma CountPositiveIffOwnsSome(m: AccountTable, userId: string)
    ensures CountByUserUserId(m, userId) > 0 <==> exists k :: k in m && m[k].ownerId == userId
  {
    var owned := set k | k in m && m[k].ownerId == userId;
    if exists k :: k in m && m[k].ownerId == userId {
      var k :| k in m && m[k].ownerId == userId;
      assert k in owned;
    } else {
      assert owned == {};
    }
  }

  /** The timestamps that auditing writes on a save of `r` over the row `prior` (absent for an insert):
      an insert stamps both dates; an update of a changed row keeps the creation date and stamps the
      modification date; a save that changes nothing writes nothing. All other columns are taken from `r`. */
  function Audited(prior: Option<AccountRecord>, r: AccountRecord, now: nat): (a: AccountRecord)
    ensures a.(createdAt := r.createdAt, updatedAt := r.updatedAt) == r
    ensures prior.None? ==> a.createdAt == now && a.updatedAt == now
    ensures prior.Some? ==> a.createdAt == prior.value.createdAt
    ensures prior.Some? && a != prior.value ==> a.updatedAt == now
    ensures prior.Some? && r.(createdAt := prior.value.createdAt, updatedAt := prior.value.updatedAt) == prior.value
            ==> a == prior.value
  {
    match prior
    case None => r.(createdAt := now, updatedAt := now)
    case Some(p) =>
      if r.(createdAt := p.createdAt, updatedAt := p.updatedAt) == p then p
      else r.(createdAt := p.createdAt, updatedAt := now)
  }

  /** The map after `save(r)` at time `now`, or the constraint violation the database raises: a new row
      whose columns do not fit, or an existing row updated to values that do not fit. */
  function Saved(m: AccountTable, r: AccountRecord, now: nat): (res: Result<AccountTable>)
    ensures res.Success? <==> FitsColumns(Audited(FindByAccountNumber(m, r.accountNumber), r, now))
    ensures res.Success? ==> res.value.Keys == m.Keys + {r.accountNumber}
    ensures res.Success? ==> res.value[r.accountNumber] == Audited(FindByAccountNumber(m, r.accountNumber), r, now)
    ensures res.Success? ==> forall k :: k in m && k != r.accountNumber ==> res.value[k] == m[k]
    ensures res.Failure? ==> res.error == ConstraintViolation && !FitsColumns(r)
    ensures Consistent(m) && res.Success? ==> Consistent(res.value)
  {
    var a := Audited(FindByAccountNumber(m, r.accountNumber), r, now);
    if FitsColumns(a) then Success(m[r.accountNumber := a]) else Failure(ConstraintViolation)
  }

  /** Saving a row that fits the columns and finding it by its number gives back the saved values, with the
      audit dates filled in: both stamped for a new row, the creation date kept for an existing one. */
  lemma SaveThenFind(m: AccountTable, r: AccountRecord, now: nat)
    requires FitsColumns(r)
    ensures Saved(m, r, now).Success?
    ensures var found := FindByAccountNumber(Saved(m, r, now).value, r.accountNumber);
      && found.Some?
      && found.value.(createdAt := r.createdAt, updatedAt := r.updatedAt) == r
      && (r.accountNumber !in m ==> found.value.createdAt == now && found.value.updatedAt == now)
      && (r.accountNumber in m ==> found.value.createdAt == m[r.accountNumber].createdAt)
  {
    var a := Audited(FindByAccountNumber(m, r.accountNumber), r, now);
    assert a.(createdAt := r.createdAt, updatedAt := r.updatedAt) == r;
    assert FitsColumns(a);
  }

  class Store {
    var accounts: AccountTable

    ghost predicate Valid()
      reads this
    {
      Consistent(accounts)
    }

    constructor ()
      ensures Valid() && accounts == map[]
    {
      accounts := map[];
    }

    /** `save(account)`: inserts or updates the row under its account number. */
    method Save(r: AccountRecord, now: nat) returns (outcome: Outcome)
      modifies this
      ensures outcome == Saved(old(accounts), r, now).ToOutcome()
      ensures accounts == Saved(old(accounts), r, now).GetOr(old(accounts))
      ensures old(Valid()) ==> Valid()
    {
      var res := Saved(accounts, r, now);
      if res.Failure? {
        return Fail(res.error);
      }
      accounts := res.value;
      outcome := Pass;
    }

    /** `delete(account)`: removes the row with that account number. */
    method Delete(accountNumber: string)
      modifies this
      ensures accounts == old(accounts) - {accountNumber}
      ensures old(Valid()) ==> Valid()
    {
      accounts := accounts - {accountNumber};
    }
  }
}
