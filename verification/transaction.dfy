/**
 * Transaction: one immutable ledger entry, and its TransactionType enum. The entity's references to its
 * account and its user are kept as the keys they join on: the account number and the owner's user id.
 */
module Transactions {
  import opened Common

  /** Exactly two kinds of posting exist. */
  datatype TransactionType = Deposit | Withdrawal

  /** `TransactionType.name()`. */
  function TypeName(t: TransactionType): string {
    match t
    case Deposit => "DEPOSIT"
    case Withdrawal => "WITHDRAWAL"
  }

  /** A ledger entry. `amount` is in pence; `createdAt` is the auditing clock's reading at insertion. */
  datatype Transaction = Transaction(
    transactionId: string,
    amount: int,
    currency: Option<string>,
    transactionType: TransactionType,
    reference: Option<string>,
    accountNumber: string,
    userId: string,
    createdAt: nat)

  const TransactionIdLength := 50
  const CurrencyLength := 3
  const ReferenceLength := 255
  const TypeLength := 20
  /** `precision = 19, scale = 2`: at most 19 digits in all, so fewer than 10^19 pence in magnitude. */
  const AmountLimit := 10_000_000_000_000_000_000

  /** The column constraints of the `transactions` table: non-null id, amount, currency and type, and the
      declared lengths and precision. The account and user joins are never null in this model. */
  predicate FitsColumns(t: Transaction) {
    && |t.transactionId| <= TransactionIdLength
    && -AmountLimit < t.amount < AmountLimit
    && t.currency.Some? && |t.currency.value| <= CurrencyLength
    && |TypeName(t.transactionType)| <= TypeLength
    && (t.reference.Some? ==> |t.reference.value| <= ReferenceLength)
  }

  /** The two enum names are distinct and both fit the type column. */
  lemma TypeNamesDistinct(t: TransactionType, u: TransactionType)
    ensures TypeName(t) == TypeName(u) <==> t == u
    ensures |TypeName(t)| <= TypeLength
  {
  }
}
