/**
 * Requests: the request records the services take. A field the client may leave out is an `Option`.
 * `CreateTransactionRequest` carries bean-validation constraints, written here as the predicate `Valid`;
 * amounts are pence.
 */
module Requests {
  import opened Common
  import opened Users

  datatype CreateTransactionRequest = CreateTransactionRequest(
    amount: Option<int>,
    currency: Option<string>,
    transactionType: Option<string>,
    reference: Option<string>)

  /** `@DecimalMin("0.01")` and `@DecimalMax("10000.00")`, both inclusive, in pence. */
  const MinAmount := 1
  const MaxAmount := 1_000_000

  /** `@Digits(integer = 5, fraction = 2)`: at most five digits before the point (two after it is the scale of
      a pence amount). */
  predicate AmountDigitsFit(a: int) {
    -10_000_000 < a < 10_000_000
  }

  /** The constraints on a transaction request: an amount between the bounds with at most five integer digits,
      the currency exactly "GBP", the type exactly "deposit" or "withdrawal"; the reference is free. */
  predicate Valid(r: CreateTransactionRequest) {
    && r.amount.Some? && MinAmount <= r.amount.value <= MaxAmount && AmountDigitsFit(r.amount.value)
    && r.currency == Some("GBP")
    && (r.transactionType == Some("deposit") || r.transactionType == Some("withdrawal"))
  }

  datatype CreateBankAccountRequest = CreateBankAccountRequest(name: Option<string>, accountType: Option<string>)

  datatype UpdateBankAccountRequest = UpdateBankAccountRequest(name: Option<string>, accountType: Option<string>)

  /** The fields the user service reads of a sign-up request; the validated text fields are present. */
  datatype CreateUserRequest = CreateUserRequest(
    name: string,
    email: string,
    phoneNumber: string,
    address: Option<Address>)

  datatype UpdateUserRequest = UpdateUserRequest(
    name: Option<string>,
    phoneNumber: Option<string>,
    address: Option<Address>)
}
