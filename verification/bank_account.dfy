/**
 * BankAccount: the account entity and the only code that changes a balance. Balances and amounts are integer
 * pence (BigDecimal with scale 2). `AccountRecord` is the persisted row; a `BankAccount` object is the entity
 * loaded from a row, changed in place by its methods and written back with `Record()`.
 */
module Accounts {
  import opened Common
  import opened Text

  datatype AccountType = Personal

  /** `AccountType.name()`. */
  function AccountTypeName(t: AccountType): string {
    match t
    case Personal => "PERSONAL"
  }

  /** `AccountType.valueOf(s.toUpperCase())`: an unknown name throws IllegalArgumentException. */
  function ParseAccountType(s: string): (r: Result<AccountType>)
    ensures r.Success? <==> ToUpper(s) == "PERSONAL"
    ensures r.Failure? ==> r.error == InvalidArgument
  {
    if ToUpper(s) == AccountTypeName(Personal) then Success(Personal) else Failure(InvalidArgument)
  }

  /** The lower-case name the responses show parses back to the same type, whatever its case. */
  lemma ParseAccountTypeOfLowerName(t: AccountType)
    ensures ParseAccountType(ToLower(AccountTypeName(t))) == Success(t)
  {
    UpperOfLower(AccountTypeName(t));
  }

  /** Which texts name the type: exactly eight characters, without sharp s or ligatures, that upper-case one by
      one to PERSONAL. Case does not matter; the multi-letter upper cases never produce the name. */
  lemma ParseAccountTypeLetters(s: string)
    ensures ParseAccountType(s).Success?
        <==> |s| == 8 && forall i :: 0 <= i < |s| ==> !Expands(s[i]) && UpperChar(s[i]) == "PERSONAL"[i]
  {
    ToUpperIsPlainName(s, "PERSONAL");
  }

  /** A row of `bank_accounts`. `ownerId` is the user id of the owning user. */
  datatype AccountRecord = AccountRecord(
    accountNumber: string,
    sortCode: string,
    name: string,
    accountType: AccountType,
    balance: int,
    currency: string,
    ownerId: string,
    createdAt: nat,
    updatedAt: nat)

  const AccountNumberLength := 8
  const SortCodeLength := 10
  const NameLength := 255
  const AccountTypeLength := 20
  const CurrencyLength := 3
  /** `precision = 19, scale = 2`: fewer than 10^19 pence in magnitude. */
  const BalanceLimit := 10_000_000_000_000_000_000

  /** The column constraints of `bank_accounts` (a String column without a length holds 255 characters). */
  predicate FitsColumns(r: AccountRecord) {
    && |r.accountNumber| <= AccountNumberLength
    && |r.sortCode| <= SortCodeLength
    && |r.name| <= NameLength
    && |AccountTypeName(r.accountType)| <= AccountTypeLength
    && -BalanceLimit < r.balance < BalanceLimit
    && |r.currency| <= CurrencyLength
  }

  /** The balance after `deposit(amount)`, or the error it throws: a missing or non-positive amount is an
      invalid argument; otherwise the amount is added. */
  function Credit(balance: int, amount: Option<int>): (r: Result<int>)
    ensures r.Success? ==> r.value > balance
    ensures balance >= 0 && r.Success? ==> r.value > 0
  {
    if amount.None? || amount.value <= 0 then Failure(InvalidArgument)
    else Success(balance + amount.value)
  }

  /** The balance after `withdraw(amount)`, or the error it throws: a missing or non-positive amount is an
      invalid argument; an amount above the balance is InsufficientFunds carrying both figures; otherwise the
      amount is subtracted. */
  function Debit(balance: int, amount: Option<int>): (r: Result<int>)
    ensures r.Success? ==> 0 <= r.value < balance
  {
    if amount.None? || amount.value <= 0 then Failure(InvalidArgument)
    else if balance < amount.value then Failure(InsufficientFunds(balance, amount.value))
    else Success(balance - amount.value)
  }

  lemma DepositRejectsNonPositive(balance: int, amount: Option<int>)
    requires amount.None? || amount.value <= 0
    ensures Credit(balance, amount) == Failure(InvalidArgument)
  {
  }

  lemma DepositAdds(balance: int, amount: int)
    requires amount > 0
    ensures Credit(balance, Some(amount)) == Success(balance + amount)
  {
  }

  lemma WithdrawRejectsNonPositive(balance: int, amount: Option<int>)
    requires amount.None? || amount.value <= 0
    ensures Debit(balance, amount) == Failure(InvalidArgument)
  {
  }

  /** Withdrawing more than the balance is refused with the available and requested amounts. */
  lemma WithdrawInsufficient(balance: int, amount: int)
    requires 0 < amount && balance < amount
    ensures Debit(balance, Some(amount)) == Failure(InsufficientFunds(balance, amount))
  {
  }

  /** A positive amount no larger than the balance is subtracted; withdrawing all of it leaves zero. */
  lemma WithdrawSubtracts(balance: int, amount: int)
    requires 0 < amount <= balance
    ensures Debit(balance, Some(amount)) == Success(balance - amount)
    ensures amount == balance ==> Debit(balance, Some(amount)) == Success(0)
  {
  }

  /** Whether it succeeds or fails, neither operation can make a non-negative balance negative. */
  lemma BalanceStaysNonNegative(balance: int, amount: Option<int>)
    requires balance >= 0
    ensures Credit(balance, amount).GetOr(balance) >= 0
    ensures Debit(balance, amount).GetOr(balance) >= 0
  {
  }

  /** Depositing an amount and then withdrawing it returns the balance to where it started. */
  lemma DepositThenWithdrawRestores(balance: int, amount: int)
    requires balance >= 0 && amount > 0
    ensures Credit(balance, Some(amount)).Success?
    ensures Debit(Credit(balance, Some(amount)).value, Some(amount)) == Success(balance)
  {
  }

  /** The in-memory entity. */
  class BankAccount {
    var accountNumber: string
    var sortCode: string
    var name: string
    var accountType: AccountType
    var balance: int
    var currency: string
    var ownerId: string
    var createdAt: nat
    var updatedAt: nat

    /** Loads the entity from its row. */
    constructor Load(r: AccountRecord)
      ensures Record() == r
    {
      accountNumber, sortCode, name, accountType := r.accountNumber, r.sortCode, r.name, r.accountType;
      balance, currency, ownerId := r.balance, r.currency, r.ownerId;
      createdAt, updatedAt := r.createdAt, r.updatedAt;
    }

    /** The row this entity is written back as. */
    function Record(): AccountRecord
      reads this
    {
      AccountRecord(accountNumber, sortCode, name, accountType, balance, currency, ownerId, createdAt, updatedAt)
    }

    /** `deposit(amount)`: only the balance can change, and only as Credit says. */
    method Deposit(amount: Option<int>) returns (outcome: Outcome)
      modifies this`balance
      ensures outcome == Credit(old(balance), amount).ToOutcome()
      ensures balance == Credit(old(balance), amount).GetOr(old(balance))
      ensures old(balance) >= 0 ==> balance >= 0
    {
      if amount.None? || amount.value <= 0 {
        return Fail(InvalidArgument);
      }
      balance := balance + amount.value;
      outcome := Pass;
    }

    /** `withdraw(amount)`: only the balance can change, and only as Debit says. */
    method Withdraw(amount: Option<int>) returns (outcome: Outcome)
      modifies this`balance
      ensures outcome == Debit(old(balance), amount).ToOutcome()
      ensures balance == Debit(old(balance), amount).GetOr(old(balance))
      ensures old(balance) >= 0 ==> balance >= 0
    {
      if amount.None? || amount.value <= 0 {
        return Fail(InvalidArgument);
      }
      if balance < amount.value {
        return Fail(InsufficientFunds(balance, amount.value));
      }
      balance := balance - amount.value;
      outcome := Pass;
    }

    /** `updateName(newName)`: a null or blank name is refused; otherwise only the name is replaced. */
    method UpdateName(newName: Option<string>) returns (outcome: Outcome)
      modifies this`name
      ensures outcome == (if IsNullOrBlank(newName) then Fail(InvalidArgument) else Pass)
      ensures name == (if outcome.Pass? then newName.value else old(name))
    {
      if newName.None? || IsBlank(newName.value) {
        return Fail(InvalidArgument);
      }
      name := newName.value;
      outcome := Pass;
    }

    /** `updateAccountType(newType)`: null is refused; otherwise only the type is replaced. */
    method UpdateAccountType(newType: Option<AccountType>) returns (outcome: Outcome)
      modifies this`accountType
      ensures outcome == (if newType.None? then Fail(InvalidArgument) else Pass)
      ensures accountType == (if outcome.Pass? then newType.value else old(accountType))
    {
      if newType.None? {
        return Fail(InvalidArgument);
      }
      accountType := newType.value;
      outcome := Pass;
    }
  }
}
