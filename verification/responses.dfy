/**
 * Responses: the records the services return for transactions and accounts. Each `From` maps null to null;
 * enum names are shown in lower case.
 */
module Responses {
  import opened Common
  import opened Text
  import opened Transactions
  import opened Accounts

  datatype TransactionResponse = TransactionResponse(
    id: string,
    amount: int,
    currency: Option<string>,
    transactionType: string,
    reference: Option<string>,
    userId: string,
    createdTimestamp: nat)

  /** `TransactionResponse.from` on a present transaction. */
  function TransactionResponseOf(t: Transaction): TransactionResponse {
    TransactionResponse(t.transactionId, t.amount, t.currency, ToLower(TypeName(t.transactionType)),
                        t.reference, t.userId, t.createdAt)
  }

  /** `TransactionResponse.from`. */
  function TransactionResponseFrom(t: Option<Transaction>): (r: Option<TransactionResponse>)
    ensures r.None? <==> t.None?
  {
    match t
    case None => None
    case Some(x) => Some(TransactionResponseOf(x))
  }

  /** The shown type names are "deposit" and "withdrawal". */
  lemma TransactionTypeShownLowerCase()
    ensures TransactionResponseOf(Transaction("", 0, None, Deposit, None, "", "", 0)).transactionType == "deposit"
    ensures TransactionResponseOf(Transaction("", 0, None, Withdrawal, None, "", "", 0)).transactionType == "withdrawal"
  {
  }

  /** The response drops only the account: two entries of one account with the same response are the same. */
  lemma TransactionResponseLosesOnlyAccount(t: Transaction, u: Transaction)
    requires t.accountNumber == u.accountNumber
    ensures TransactionResponseOf(t) == TransactionResponseOf(u) <==> t == u
  {
    if TransactionResponseOf(t) == TransactionResponseOf(u) {
      assert |ToLower(TypeName(t.transactionType))| == |ToLower(TypeName(u.transactionType))|;
    }
  }

  datatype BankAccountResponse = BankAccountResponse(
    accountNumber: string,
    sortCode: string,
    name: string,
    accountType: string,
    balance: int,
    currency: string,
    createdTimestamp: nat,
    updatedTimestamp: nat)

  /** `BankAccountResponse.from` on a present account. */
  function BankAccountResponseOf(a: AccountRecord): BankAccountResponse {
    BankAccountResponse(a.accountNumber, a.sortCode, a.name, ToLower(AccountTypeName(a.accountType)),
                        a.balance, a.currency, a.createdAt, a.updatedAt)
  }

  /** `BankAccountResponse.from`. */
  function BankAccountResponseFrom(a: Option<AccountRecord>): (r: Option<BankAccountResponse>)
    ensures r.None? <==> a.None?
  {
    match a
    case None => None
    case Some(x) => Some(BankAccountResponseOf(x))
  }

  /** The response drops only the owner, and its type name parses back to the account's type. */
  lemma BankAccountResponseLosesOnlyOwner(a: AccountRecord, b: AccountRecord)
    requires a.ownerId == b.ownerId
    ensures BankAccountResponseOf(a) == BankAccountResponseOf(b) <==> a == b
    ensures BankAccountResponseOf(a).accountType == "personal"
    ensures ParseAccountType(BankAccountResponseOf(a).accountType) == Success(a.accountType)
  {
    ParseAccountTypeOfLowerName(a.accountType);
  }
}
