/**
 * AccountService: opening, listing, reading, updating and deleting bank accounts. A new account gets a fresh
 * account number from a bounded retry loop over random draws, the bank's fixed sort code and currency, a zero
 * balance and the requesting user as owner. Reads, updates and deletes go through the ownership check.
 * The random draws (`draws(i)` is the i-th value of `nextInt(900000)`) and the clock reading are inputs.
 */
module AccountService {
  import opened Common
  import opened Text
  import opened IdGenerator
  import opened Accounts
  import opened Requests
  import opened Responses
  import opened Security
  import AR = BankAccountRepository
  import TR = TransactionRepository
  import U = Users
  import TS = TransactionService

  const SortCode := "10-10-10"
  const DefaultCurrency := "GBP"
  /** The number of candidates checked before giving up. */
  const MaxAttempts := 100

  /** The outcome of the retry loop, and how many draws it consumed. */
  datatype Generation = Generation(result: Result<string>, used: nat)

  /** `generateUniqueAccountNumber` from its `i`-th attempt on: each attempt draws a candidate and counts
      itself; the attempt after the hundredth fails with Conflict before its candidate is checked; a
      candidate not already stored is returned. */
  function FirstFree(m: AR.AccountTable, draws: nat -> AccountDraw, i: nat): Generation
    requires i <= MaxAttempts
    decreases MaxAttempts - i
  {
    var candidate := AccountNumber(draws(i));
    if i + 1 > MaxAttempts then Generation(Failure(Conflict), i + 1)
    else if !AR.ExistsByAccountNumber(m, candidate) then Generation(Success(candidate), i + 1)
    else FirstFree(m, draws, i + 1)
  }

  /** From attempt `i` on, the loop returns the first free candidate among draws i..99, having consumed the
      draws up to it; when all of them are taken it fails with Conflict after consuming a 101st draw. */
  lemma {:induction false} FirstFreeMeaning(m: AR.AccountTable, draws: nat -> AccountDraw, i: nat)
    requires i <= MaxAttempts
    decreases MaxAttempts - i
    ensures var g := FirstFree(m, draws, i);
      && (g.result.Success? ==>
            && i < g.used <= MaxAttempts
            && g.result.value == AccountNumber(draws(g.used - 1))
            && g.result.value !in m
            && forall j :: i <= j < g.used - 1 ==> AccountNumber(draws(j)) in m)
      && (g.result.Failure? <==> forall j :: i <= j < MaxAttempts ==> AccountNumber(draws(j)) in m)
      && (g.result.Failure? ==> g.result.error == Conflict && g.used == MaxAttempts + 1)
  {
    if i < MaxAttempts && AccountNumber(draws(i)) in m {
      FirstFreeMeaning(m, draws, i + 1);
    }
  }

  /** `generateUniqueAccountNumber`: the do/while loop over the draws, returning the number and how many
      draws it consumed. */
  method GenerateUniqueAccountNumber(m: AR.AccountTable, draws: nat -> AccountDraw)
    returns (r: Result<string>, used: nat)
    ensures Generation(r, used) == FirstFree(m, draws, 0)
    ensures r.Success? ==> r.value !in m && IsAccountNumberText(r.value)
    ensures r.Failure? <==> forall j :: 0 <= j < MaxAttempts ==> AccountNumber(draws(j)) in m
  {
    FirstFreeMeaning(m, draws, 0);
    var accountNumber := AccountNumber(draws(0));
    var attempts := 1;
    while AR.ExistsByAccountNumber(m, accountNumber)
      invariant 1 <= attempts <= MaxAttempts
      invariant accountNumber == AccountNumber(draws(attempts - 1))
      invariant FirstFree(m, draws, attempts - 1) == FirstFree(m, draws, 0)
      decreases MaxAttempts - attempts
    {
      accountNumber := AccountNumber(draws(attempts));
      attempts := attempts + 1;
      if attempts > MaxAttempts {
        return Failure(Conflict), attempts;
      }
    }
    AccountNumberFormat(draws(attempts - 1));
    return Success(accountNumber), attempts;
  }

  /** What opening an account does to the account table. */
  datatype Opening = Opening(accounts: AR.AccountTable, result: Result<AccountRecord>, used: nat)

  /** `createAccount` as a function of the stores before it: an unknown user is not found; then the number is
      generated; a missing type dereferences null and an unknown one is an invalid argument; a missing name
      breaks the column's not-null constraint; the row is then saved. */
  function Open(users: U.UserTable, m: AR.AccountTable, userId: string, request: CreateBankAccountRequest,
                draws: nat -> AccountDraw, now: nat): (o: Opening)
    ensures o.result.Failure? ==> o.accounts == m
  {
    if U.FindByUserId(users, userId).None? then Opening(m, Failure(NotFound), 0)
    else
      var g := FirstFree(m, draws, 0);
      match g.result
      case Failure(e) => Opening(m, Failure(e), g.used)
      case Success(number) =>
        if request.accountType.None? then Opening(m, Failure(NullReference), g.used)
        else match ParseAccountType(request.accountType.value)
          case Failure(e) => Opening(m, Failure(e), g.used)
          case Success(t) =>
            if request.name.None? then Opening(m, Failure(ConstraintViolation), g.used)
            else
              var a := AccountRecord(number, SortCode, request.name.value, t, 0, DefaultCurrency, userId, 0, 0);
              match AR.Saved(m, a, now)
              case Failure(e) => Opening(m, Failure(e), g.used)
              case Success(m2) => Opening(m2, Success(m2[number]), g.used)
  }

  /** Opening for an unknown user is not found, draws nothing and saves nothing. */
  lemma OpenUnknownUser(users: U.UserTable, m: AR.AccountTable, userId: string, request: CreateBankAccountRequest,
                        draws: nat -> AccountDraw, now: nat)
    requires userId !in users
    ensures Open(users, m, userId, request, draws, now) == Opening(m, Failure(NotFound), 0)
  {
  }

  /** A successful opening saves, under the first free number, the new row stamped with the clock reading. */
  lemma OpenSucceeded(users: U.UserTable, m: AR.AccountTable, userId: string, request: CreateBankAccountRequest,
                      draws: nat -> AccountDraw, now: nat)
    requires Open(users, m, userId, request, draws, now).result.Success?
    ensures userId in users && FirstFree(m, draws, 0).result.Success?
    ensures request.name.Some? && request.accountType.Some? && ParseAccountType(request.accountType.value).Success?
    ensures var a := AccountRecord(FirstFree(m, draws, 0).result.value, SortCode, request.name.value,
                                   ParseAccountType(request.accountType.value).value, 0, DefaultCurrency, userId, now, now);
      Open(users, m, userId, request, draws, now) == Opening(m[a.accountNumber := a], Success(a), FirstFree(m, draws, 0).used)
  {
    FirstFreeMeaning(m, draws, 0);
  }

  /** An opened account is new, has a well-formed number, the bank's sort code and currency, a zero balance,
      the requested name and type and the requesting user as owner; it is the only row added and no other row
      changes. A refusal saves nothing. */
  lemma OpenedAccount(users: U.UserTable, m: AR.AccountTable, userId: string, request: CreateBankAccountRequest,
                      draws: nat -> AccountDraw, now: nat)
    ensures var o := Open(users, m, userId, request, draws, now);
      && (o.result.Failure? ==> o.accounts == m)
      && (o.result.Success? ==>
            var a := o.result.value;
            && userId in users
            && a.accountNumber !in m && IsAccountNumberText(a.accountNumber)
            && o.accounts == m[a.accountNumber := a]
            && a.sortCode == "10-10-10" && a.currency == "GBP" && a.balance == 0
            && a.ownerId == userId
            && request.name == Some(a.name)
            && request.accountType.Some? && ParseAccountType(request.accountType.value) == Success(a.accountType)
            && a.createdAt == now && a.updatedAt == now)
  {
    var o := Open(users, m, userId, request, draws, now);
    if o.result.Success? {
      OpenSucceeded(users, m, userId, request, draws, now);
      FirstFreeMeaning(m, draws, 0);
      var g := FirstFree(m, draws, 0);
      AccountNumberFormat(draws(g.used - 1));
    }
  }

  /** Opening keeps the table's invariant, and afterwards the owner has accounts. */
  lemma OpenPreservesConsistent(users: U.UserTable, m: AR.AccountTable, userId: string,
                                request: CreateBankAccountRequest, draws: nat -> AccountDraw, now: nat)
    requires AR.Consistent(m)
    ensures AR.Consistent(Open(users, m, userId, request, draws, now).accounts)
    ensures Open(users, m, userId, request, draws, now).result.Success? ==> HasAccounts(Open(users, m, userId, request, draws, now).accounts, userId)
  {
    var o := Open(users, m, userId, request, draws, now);
    OpenedAccount(users, m, userId, request, draws, now);
    if o.result.Success? {
      AR.CountPositiveIffOwnsSome(o.accounts, userId);
      assert o.result.value.accountNumber in o.accounts;
    }
  }

  /** `listAccounts`: the responses for the user's accounts (the list's order is unspecified). */
  function ListAccounts(m: AR.AccountTable, userId: string): set<BankAccountResponse> {
    set k | k in AR.FindByUserUserId(m, userId) :: BankAccountResponseOf(m[k])
  }

  lemma {:induction false} ResponsesOfDistinctNumbers(m: AR.AccountTable, keys: set<string>)
    requires AR.KeyedByNumber(m) && keys <= m.Keys
    ensures |set k | k in keys :: BankAccountResponseOf(m[k])| == |keys|
  {
    if keys != {} {
      var k :| k in keys;
      var rest := keys - {k};
      ResponsesOfDistinctNumbers(m, rest);
      var image := set j | j in keys :: BankAccountResponseOf(m[j]);
      var restImage := set j | j in rest :: BankAccountResponseOf(m[j]);
      assert image == restImage + {BankAccountResponseOf(m[k])};
      assert BankAccountResponseOf(m[k]) !in restImage;
    }
  }

  /** The listing shows exactly the user's accounts, one response per account, so it has as many entries as
      the user owns accounts. */
  lemma ListAccountsExactly(m: AR.AccountTable, userId: string)
    requires AR.KeyedByNumber(m)
    ensures forall r :: r in ListAccounts(m, userId) <==> exists k :: k in m && m[k].ownerId == userId && r == BankAccountResponseOf(m[k])
    ensures |ListAccounts(m, userId)| == AR.CountByUserUserId(m, userId)
  {
    AR.FindByUserUserIdExactly(m, userId);
    AR.CountMatchesListing(m, userId);
    ResponsesOfDistinctNumbers(m, AR.FindByUserUserId(m, userId).Keys);
    assert ListAccounts(m, userId) == set k | k in AR.FindByUserUserId(m, userId).Keys :: BankAccountResponseOf(m[k]);
  }

  /** `hasAccounts`. */
  predicate HasAccounts(m: AR.AccountTable, userId: string) {
    AR.CountByUserUserId(m, userId) > 0
  }

  /** A user has accounts exactly when some stored account is theirs. */
  lemma HasAccountsIffOwnsSome(m: AR.AccountTable, userId: string)
    ensures HasAccounts(m, userId) <==> exists k :: k in m && m[k].ownerId == userId
  {
    AR.CountPositiveIffOwnsSome(m, userId);
  }

  /** `getAccountByAccountNumber`. */
  function GetAccountByAccountNumber(m: AR.AccountTable, userId: string, accountNumber: string)
    : (r: Result<BankAccountResponse>)
    ensures r.Success? <==> accountNumber in m && m[accountNumber].ownerId == userId
    ensures r.Success? ==> r.value == BankAccountResponseOf(m[accountNumber])
    ensures r.Failure? ==> r.error == (if accountNumber in m then Forbidden else NotFound)
  {
    match ResolveOwnedAccount(m, accountNumber, userId)
    case Failure(e) => Failure(e)
    case Success(a) => Success(BankAccountResponseOf(a))
  }

  /** Whether an update field is given: present and not blank. */
  predicate Provided(s: Option<string>) {
    s.Some? && !IsBlank(s.value)
  }

  /** The fields of `updateAccount`'s partial update: a provided name replaces the name, a provided type is
      parsed (an unknown one is an invalid argument) and replaces the type; nothing else changes. */
  function Amended(a: AccountRecord, request: UpdateBankAccountRequest): (r: Result<AccountRecord>)
    ensures r.Failure? <==> Provided(request.accountType) && ParseAccountType(request.accountType.value).Failure?
    ensures r.Failure? ==> r.error == InvalidArgument
    ensures r.Success? ==> r.value == a.(name := r.value.name, accountType := r.value.accountType)
    ensures r.Success? ==> r.value.name == (if Provided(request.name) then request.name.value else a.name)
    ensures r.Success? && !Provided(request.accountType) ==> r.value.accountType == a.accountType
    ensures r.Success? && Provided(request.accountType) ==> ParseAccountType(request.accountType.value) == Success(r.value.accountType)
  {
    var named := if Provided(request.name) then a.(name := request.name.value) else a;
    if Provided(request.accountType) then
      match ParseAccountType(request.accountType.value)
      case Failure(e) => Failure(e)
      case Success(t) => Success(named.(accountType := t))
    else Success(named)
  }

  /** What an update or delete does to the account table. */
  datatype Change = Change(accounts: AR.AccountTable, result: Result<AccountRecord>)

  /** `updateAccount` as a function of the table before it. The response is built from the entity as the
      update leaves it: the modification date is stamped only when the change is flushed, after the response. */
  function Update(m: AR.AccountTable, userId: string, accountNumber: string, request: UpdateBankAccountRequest,
                  now: nat): Change
  {
    match ResolveOwnedAccount(m, accountNumber, userId)
    case Failure(e) => Change(m, Failure(e))
    case Success(a) =>
      match Amended(a, request)
      case Failure(e) => Change(m, Failure(e))
      case Success(b) =>
        match AR.Saved(m, b, now)
        case Failure(e) => Change(m, Failure(e))
        case Success(m2) => Change(m2, Success(b))
  }

  /** A refused update changes nothing: a missing account is not found, someone else's is forbidden. A
      successful one changes only that account, as `Amended` says; the stored row gets a new modification date
      exactly when something changed, while the response still shows the previous one. */
  lemma UpdateEffect(m: AR.AccountTable, userId: string, accountNumber: string, request: UpdateBankAccountRequest,
                     now: nat)
    requires AR.KeyedByNumber(m)
    ensures var c := Update(m, userId, accountNumber, request, now);
      && (c.result.Failure? ==> c.accounts == m)
      && (accountNumber !in m ==> c.result == Failure(NotFound))
      && (accountNumber in m && m[accountNumber].ownerId != userId ==> c.result == Failure(Forbidden))
      && (c.result.Success? ==>
            && accountNumber in m && m[accountNumber].ownerId == userId
            && Amended(m[accountNumber], request) == Success(c.result.value)
            && accountNumber in c.accounts && c.accounts == m[accountNumber := c.accounts[accountNumber]]
            && c.accounts[accountNumber].(updatedAt := c.result.value.updatedAt) == c.result.value
            && (c.result.value == m[accountNumber] ==> c.accounts[accountNumber] == m[accountNumber])
            && (c.result.value != m[accountNumber] ==> c.accounts[accountNumber].updatedAt == now)
            && c.result.value.updatedAt == m[accountNumber].updatedAt)
  {
  }

  /** `deleteAccount` as a function of the stores before it: the owned account is removed, unless ledger
      entries still refer to it, in which case the database's foreign key refuses the delete and the
      transaction rolls back. */
  function Remove(m: AR.AccountTable, l: TR.Ledger, userId: string, accountNumber: string): (c: Change)
    ensures c.result.Success? <==> accountNumber in m && m[accountNumber].ownerId == userId
                                   && TR.ForAccount(l, accountNumber) == []
    ensures c.result.Success? ==> c.accounts == m - {accountNumber} && c.result.value == m[accountNumber]
    ensures c.result.Failure? ==> c.accounts == m
    ensures c.result.Failure? ==> c.result.error == (if accountNumber !in m then NotFound
                                                     else if m[accountNumber].ownerId != userId then Forbidden
                                                     else ConstraintViolation)
  {
    match ResolveOwnedAccount(m, accountNumber, userId)
    case Failure(e) => Change(m, Failure(e))
    case Success(a) =>
      if TR.ForAccount(l, accountNumber) != [] then Change(m, Failure(ConstraintViolation))
      else Change(m - {accountNumber}, Success(a))
  }

  /** An account that has ledger entries cannot be deleted. */
  lemma RemoveRefusedWithEntries(m: AR.AccountTable, l: TR.Ledger, userId: string, accountNumber: string, i: nat)
    requires accountNumber in m && m[accountNumber].ownerId == userId
    requires i < |l| && l[i].accountNumber == accountNumber
    ensures Remove(m, l, userId, accountNumber) == Change(m, Failure(ConstraintViolation))
  {
    TR.ForAccountExactly(l, accountNumber);
    assert l[i] in TR.ForAccount(l, accountNumber);
  }

  /** In stores whose balances agree with the ledger, an account with money in it has entries, so it cannot be
      deleted: the balance never has to be checked. */
  lemma RemoveFundedRefused(m: AR.AccountTable, l: TR.Ledger, userId: string, accountNumber: string)
    requires TS.Reconciled(m, l)
    requires accountNumber in m && m[accountNumber].ownerId == userId && m[accountNumber].balance != 0
    ensures Remove(m, l, userId, accountNumber) == Change(m, Failure(ConstraintViolation))
  {
    TS.FundedAccountHasEntries(m, l, accountNumber);
  }

  /** An owned account without ledger entries is removed, and the owner has one account fewer. */
  lemma RemoveWithoutEntries(m: AR.AccountTable, l: TR.Ledger, userId: string, accountNumber: string)
    requires accountNumber in m && m[accountNumber].ownerId == userId
    requires forall i :: 0 <= i < |l| ==> l[i].accountNumber != accountNumber
    ensures Remove(m, l, userId, accountNumber).result == Success(m[accountNumber])
    ensures Remove(m, l, userId, accountNumber).accounts == m - {accountNumber}
    ensures AR.CountByUserUserId(Remove(m, l, userId, accountNumber).accounts, userId) == AR.CountByUserUserId(m, userId) - 1
  {
    TR.ForAccountExactly(l, accountNumber);
    var before := set k | k in m && m[k].ownerId == userId;
    var after := set k | k in m - {accountNumber} && (m - {accountNumber})[k].ownerId == userId;
    assert before == after + {accountNumber};
  }

  // ----- the balances stay in agreement with the ledger -----

  /** A number no stored account has carries no ledger entries. */
  lemma UnstoredHasNoEntries(m: AR.AccountTable, l: TR.Ledger, accountNumber: string)
    requires TS.Reconciled(m, l) && accountNumber !in m
    ensures TR.ForAccount(l, accountNumber) == []
  {
    TR.ForAccountExactly(l, accountNumber);
  }

  /** A new account starts at zero with no entries; nothing else changes. */
  lemma OpenKeepsReconciled(users: U.UserTable, m: AR.AccountTable, l: TR.Ledger, userId: string,
                            request: CreateBankAccountRequest, draws: nat -> AccountDraw, now: nat)
    requires TS.Reconciled(m, l)
    ensures TS.Reconciled(Open(users, m, userId, request, draws, now).accounts, l)
  {
    var o := Open(users, m, userId, request, draws, now);
    if o.result.Success? {
      OpenedAccount(users, m, userId, request, draws, now);
      UnstoredHasNoEntries(m, l, o.result.value.accountNumber);
    }
  }

  /** An update leaves every balance as it was. */
  lemma UpdateKeepsReconciled(m: AR.AccountTable, l: TR.Ledger, userId: string, accountNumber: string,
                              request: UpdateBankAccountRequest, now: nat)
    requires AR.KeyedByNumber(m) && TS.Reconciled(m, l)
    ensures TS.Reconciled(Update(m, userId, accountNumber, request, now).accounts, l)
  {
    UpdateEffect(m, userId, accountNumber, request, now);
  }

  /** Only an account without entries is removed, so every entry still belongs to a stored account. */
  lemma RemoveKeepsReconciled(m: AR.AccountTable, l: TR.Ledger, userId: string, accountNumber: string)
    requires TS.Reconciled(m, l)
    ensures TS.Reconciled(Remove(m, l, userId, accountNumber).accounts, l)
  {
    var c := Remove(m, l, userId, accountNumber);
    if c.result.Success? {
      TR.ForAccountExactly(l, accountNumber);
      forall i | 0 <= i < |l| ensures l[i].accountNumber in c.accounts {
        assert l[i] in l;
      }
    }
  }

  class AccountService {
    const accounts: AR.Store
    const users: U.Store
    /** The ledger table, whose foreign key to the accounts guards deletion. */
    const transactions: TR.Store

    constructor (accounts: AR.Store, users: U.Store, transactions: TR.Store)
      ensures this.accounts == accounts && this.users == users && this.transactions == transactions
    {
      this.accounts := accounts;
      this.users := users;
      this.transactions := transactions;
    }

    /** `createAccount`: opens the account and returns its response. */
    method CreateAccount(userId: string, request: CreateBankAccountRequest, draws: nat -> AccountDraw, now: nat)
      returns (r: Result<BankAccountResponse>, used: nat)
      modifies accounts
      ensures var o := Open(users.users, old(accounts.accounts), userId, request, draws, now);
        && accounts.accounts == o.accounts && used == o.used
        && r == (if o.result.Success? then Success(BankAccountResponseOf(o.result.value)) else Failure(o.result.error))
      ensures old(accounts.Valid()) ==> accounts.Valid()
    {
      if U.FindByUserId(users.users, userId).None? {
        return Failure(NotFound), 0;
      }
      var number;
      number, used := GenerateUniqueAccountNumber(accounts.accounts, draws);
      if number.Failure? {
        return Failure(number.error), used;
      }
      if request.accountType.None? {
        return Failure(NullReference), used;
      }
      var t := ParseAccountType(request.accountType.value);
      if t.Failure? {
        return Failure(t.error), used;
      }
      if request.name.None? {
        return Failure(ConstraintViolation), used;
      }
      var account := AccountRecord(number.value, SortCode, request.name.value, t.value, 0, DefaultCurrency, userId, 0, 0);
      var outcome := accounts.Save(account, now);
      if outcome.Fail? {
        return Failure(outcome.error), used;
      }
      r := Success(BankAccountResponseOf(accounts.accounts[number.value]));
    }

    /** `updateAccount`: loads the entity, applies the provided fields through its update methods and saves it. */
    method UpdateAccount(userId: string, accountNumber: string, request: UpdateBankAccountRequest, now: nat)
      returns (r: Result<BankAccountResponse>)
      modifies accounts
      ensures var c := Update(old(accounts.accounts), userId, accountNumber, request, now);
        && accounts.accounts == c.accounts
        && r == (if c.result.Success? then Success(BankAccountResponseOf(c.result.value)) else Failure(c.result.error))
      ensures old(accounts.Valid()) ==> accounts.Valid()
    {
      var resolved := ResolveOwnedAccount(accounts.accounts, accountNumber, userId);
      if resolved.Failure? {
        return Failure(resolved.error);
      }
      var account := new BankAccount.Load(resolved.value);
      if Provided(request.name) {
        var _ := account.UpdateName(request.name);
      }
      if Provided(request.accountType) {
        var t := ParseAccountType(request.accountType.value);
        if t.Failure? {
          return Failure(t.error);
        }
        var _ := account.UpdateAccountType(Some(t.value));
      }
      assert Amended(resolved.value, request) == Success(account.Record());
      var outcome := accounts.Save(account.Record(), now);
      if outcome.Fail? {
        return Failure(outcome.error);
      }
      r := Success(BankAccountResponseOf(account.Record()));
    }

    /** `deleteAccount`. */
    method DeleteAccount(userId: string, accountNumber: string) returns (outcome: Outcome)
      modifies accounts
      ensures var c := Remove(old(accounts.accounts), transactions.ledger, userId, accountNumber);
        accounts.accounts == c.accounts && outcome == c.result.ToOutcome()
      ensures old(accounts.Valid()) ==> accounts.Valid()
    {
      var resolved := ResolveOwnedAccount(accounts.accounts, accountNumber, userId);
      if resolved.Failure? {
        return Fail(resolved.error);
      }
      if TR.ForAccount(transactions.ledger, accountNumber) != [] {
        return Fail(ConstraintViolation);
      }
      accounts.Delete(accountNumber);
      outcome := Pass;
    }
  }
}
