# Eagle Bank account and ledger engine, in Dafny

A model of the core of the Eagle Bank REST service: the bank-account entity that owns the balance, the
transaction service that posts deposits and withdrawals to it and keeps the ledger, the account and user
services around them, the ownership guard, the identifier generator, the request validator for transactions,
the response mappers, and the two repositories (accounts keyed by account number, the ledger as a sequence).

Money is integer pence (the source's `BigDecimal` with scale 2). A Java `null` is `None`. Every thrown exception
becomes a `Failure` of `Common.Error`: `NotFound`, `Forbidden`, `Conflict`, `InvalidArgument`,
`InsufficientFunds(available, requested)`, `NullReference` for an uncaught null dereference, and
`ConstraintViolation` for a row the database refuses (column length, precision, not-null or uniqueness), after
which the database transaction rolls back. Randomness (the UUID behind an id, the `nextInt(900000)` draws of
the account-number loop), the clock reading and the encoded password are inputs.

The form follows the source:

- `BankAccount` is a class whose methods change its fields in place. Each method is proved against a pure
  function of the old balance (`Credit`, `Debit`). The persisted row is the datatype `AccountRecord`.
- Each repository is a class whose single field (a map or a sequence) its `Save`/`Delete` methods reassign.
  The declared queries are functions of that field.
- Each service is a class whose state-changing methods are proved against a pure function of the stores
  before the call (`Post`, `Open`, `Update`, `Remove`, `Register`, `Revise`, `Unregister`). The
  properties the source promises are lemmas about those functions. Read-only operations are functions.
- `generateUniqueAccountNumber` is a loop proved against the function `FirstFree`.

## Model

| member | source | states |
|---|---|---|
| Text.IsBlank | src/main/java/com/eaglebank/service/AccountService.java:107 | `isBlank`: empty or white space only, by `Character.isWhitespace`, so the non-breaking spaces are not blank; what a blank name or type does is stated by `BankAccount.UpdateName` and `Amended` |
| Text.UpperText | src/main/java/com/eaglebank/service/TransactionService.java:116 | the upper case of one character: sharp s and the Latin ligatures U+FB00–FB06 become two or three ASCII capitals, exactly these expand, and every other character becomes the single character `UpperChar` gives |
| Text.ToUpperCharwise | src/main/java/com/eaglebank/service/TransactionService.java:116 | `toUpperCase` never shortens a text; without sharp s and ligatures it keeps the length and upper-cases each character on its own |
| Text.ToUpperIsPlainName | src/main/java/com/eaglebank/service/TransactionService.java:116 | a text upper-cases to an ASCII name without the letter pairs the expansions produce exactly when it has the name's length and each of its characters upper-cases on its own to the name's letter |
| Text.ToLower | src/main/java/com/eaglebank/dto/response/TransactionResponse.java:27 | `toLowerCase` on an enum name keeps the length and lower-cases A–Z one character at a time; `UpperOfLower` is its inverse on upper-case names |
| Text.UpperOfLower | src/main/java/com/eaglebank/dto/response/TransactionResponse.java:27 | upper-casing the lower-cased form of an upper-case ASCII name gives the name back |
| Text.NatToDecimalRoundTrip | src/main/java/com/eaglebank/util/IdGenerator.java:24 | the decimal text of a number is all digits and reads back as the number |
| Text.NatToDecimalLength | src/main/java/com/eaglebank/util/IdGenerator.java:23-24 | a number in [10^(k-1), 10^k) has k decimal digits |
| IdGenerator.UuidTextWithoutDashes | src/main/java/com/eaglebank/util/IdGenerator.java:28-30 | removing the dashes from a UUID's 8-4-4-4-12 text leaves its 32 hex digits |
| IdGenerator.RandomString | src/main/java/com/eaglebank/util/IdGenerator.java:27-32 | `generateRandomString(n)` is the first n hex digits of the UUID |
| IdGenerator.UserId | src/main/java/com/eaglebank/util/IdGenerator.java:13-15 | "usr-" and the UUID's first 12 hex digits; its form is `UserIdFormat` and its collisions `UserIdCollision` |
| IdGenerator.TransactionId | src/main/java/com/eaglebank/util/IdGenerator.java:17-19 | "tan-" and the UUID's first 12 hex digits; its form is `TransactionIdFormat` |
| IdGenerator.AccountNumber | src/main/java/com/eaglebank/util/IdGenerator.java:21-25 | "01" and the decimal text of 100000 + draw; its form is `AccountNumberFormat` and it is injective by `AccountNumberInjective` |
| IdGenerator.UserIdFormat | src/main/java/com/eaglebank/util/IdGenerator.java:13-15 | a user id is "usr-" and 12 lower-case hex digits, 16 characters, for every UUID |
| IdGenerator.TransactionIdFormat | src/main/java/com/eaglebank/util/IdGenerator.java:17-19 | a transaction id is "tan-" and 12 lower-case hex digits, 16 characters, for every UUID |
| IdGenerator.UserIdCollision | src/main/java/com/eaglebank/util/IdGenerator.java:27-32 | two UUIDs give the same user id exactly when their first 12 hex digits agree |
| IdGenerator.AccountNumberFormat | src/main/java/com/eaglebank/util/IdGenerator.java:21-25 | an account number is "01" and six digits reading 100000 + draw, 8 digits in all, for every draw |
| IdGenerator.AccountNumberInjective | src/main/java/com/eaglebank/util/IdGenerator.java:21-25 | different draws give different account numbers |
| Accounts.ParseAccountType | src/main/java/com/eaglebank/service/AccountService.java:50 | `valueOf(s.toUpperCase())` succeeds exactly when the upper-cased text is "PERSONAL"; otherwise InvalidArgument |
| Accounts.ParseAccountTypeLetters | src/main/java/com/eaglebank/service/AccountService.java:50 | the type parses exactly for an 8-character text whose characters each upper-case on their own to P, E, R, S, O, N, A, L; sharp s and ligatures never help |
| Accounts.ParseAccountTypeOfLowerName | src/main/java/com/eaglebank/dto/response/BankAccountResponse.java:28 | the lower-case name an account response shows parses back to its type |
| Accounts.Credit | src/main/java/com/eaglebank/domain/BankAccount.java:68-73 | a successful deposit raises the balance, and leaves a non-negative balance positive |
| Accounts.Debit | src/main/java/com/eaglebank/domain/BankAccount.java:75-85 | a successful withdrawal lowers the balance and never below zero |
| Accounts.DepositRejectsNonPositive | src/main/java/com/eaglebank/domain/BankAccount.java:69-71 | a missing or non-positive deposit is an invalid argument |
| Accounts.DepositAdds | src/main/java/com/eaglebank/domain/BankAccount.java:72 | a positive deposit adds the amount |
| Accounts.WithdrawRejectsNonPositive | src/main/java/com/eaglebank/domain/BankAccount.java:76-78 | a missing or non-positive withdrawal is an invalid argument |
| Accounts.WithdrawInsufficient | src/main/java/com/eaglebank/domain/BankAccount.java:79-83 | withdrawing more than the balance is InsufficientFunds with the balance and the amount |
| Accounts.WithdrawSubtracts | src/main/java/com/eaglebank/domain/BankAccount.java:79-84 | a positive amount up to the balance is subtracted; withdrawing the whole balance leaves 0 |
| Accounts.BalanceStaysNonNegative | src/main/java/com/eaglebank/domain/BankAccount.java:68-85 | from a non-negative balance, deposit and withdraw leave it non-negative whether they succeed or fail |
| Accounts.DepositThenWithdrawRestores | src/main/java/com/eaglebank/domain/BankAccount.java:68-85 | depositing and then withdrawing the same positive amount restores the balance |
| Accounts.BankAccount.Load | src/main/java/com/eaglebank/domain/BankAccount.java:29-62 | the loaded entity writes back as exactly the row it was loaded from |
| Accounts.BankAccount.Deposit | src/main/java/com/eaglebank/domain/BankAccount.java:68-73 | only the balance may change, exactly as `Credit` says; a failure leaves it unchanged; non-negativity is kept |
| Accounts.BankAccount.Withdraw | src/main/java/com/eaglebank/domain/BankAccount.java:75-85 | only the balance may change, exactly as `Debit` says; a failure leaves it unchanged; non-negativity is kept |
| Accounts.BankAccount.UpdateName | src/main/java/com/eaglebank/domain/BankAccount.java:87-92 | a null or blank name is refused and nothing changes; otherwise only the name is replaced |
| Accounts.BankAccount.UpdateAccountType | src/main/java/com/eaglebank/domain/BankAccount.java:94-99 | null is refused and nothing changes; otherwise only the type is replaced |
| BankAccountRepository.FindByAccountNumber | src/main/java/com/eaglebank/repository/BankAccountRepository.java:13 | present exactly when the number is stored, and then the stored row with that number |
| BankAccountRepository.FindByUserUserId | src/main/java/com/eaglebank/repository/BankAccountRepository.java:15 | the rows whose owner is the user; `FindByUserUserIdExactly` states it |
| BankAccountRepository.ExistsByAccountNumber | src/main/java/com/eaglebank/repository/BankAccountRepository.java:17 | whether the number is stored; the account-number loop is proved against it (`GenerateUniqueAccountNumber`) |
| BankAccountRepository.CountByUserUserId | src/main/java/com/eaglebank/repository/BankAccountRepository.java:19 | the number of the user's rows; `CountMatchesListing` and `CountPositiveIffOwnsSome` state it |
| BankAccountRepository.FindByUserUserIdExactly | src/main/java/com/eaglebank/repository/BankAccountRepository.java:15 | the owner listing holds exactly the user's rows, unchanged, and is empty for a user with none |
| BankAccountRepository.CountMatchesListing | src/main/java/com/eaglebank/repository/BankAccountRepository.java:19 | the count is the size of the owner listing |
| BankAccountRepository.CountPositiveIffOwnsSome | src/main/java/com/eaglebank/repository/BankAccountRepository.java:19 | the count is positive exactly when the user owns some account |
| BankAccountRepository.Audited | src/main/java/com/eaglebank/domain/BankAccount.java:56-62 | an insert stamps both dates; an update keeps the creation date and stamps a changed row's modification date; other columns come from the saved row |
| BankAccountRepository.Saved | src/main/java/com/eaglebank/domain/BankAccount.java:29-47 | a save succeeds exactly when the audited row fits the column constraints, stores that audited row under its number and changes no other row, and keeps the table keyed and within its constraints |
| BankAccountRepository.Store.Save | src/main/java/com/eaglebank/service/AccountService.java:115 | the table becomes `Saved`'s result, or stays as it was on a refusal; the invariant is kept |
| BankAccountRepository.SaveThenFind | src/test/java/com/eaglebank/repository/BankAccountRepositoryTest.java:145-162 | a row that fits the columns is saved, and finding it by number gives it back with only its dates set: both stamped when new, the creation date kept when it replaces a row |
| BankAccountRepository.Store.Delete | src/main/java/com/eaglebank/service/AccountService.java:132 | exactly the row with that number is removed; the invariant is kept |
| TransactionRepository.FirstMatching | src/main/java/com/eaglebank/repository/TransactionRepository.java:13-17 | a found entry is in the ledger and matches; none is found exactly when no entry matches |
| TransactionRepository.FindByTransactionId | src/main/java/com/eaglebank/repository/TransactionRepository.java:13 | the first entry with that id, or none; `FindSavedById` and `ExistsIffFound` state it |
| TransactionRepository.FindByTransactionIdAndAccountNumber | src/main/java/com/eaglebank/repository/TransactionRepository.java:17 | the first entry with that id in that account, or none; `FindByIdAndAccountExactly` states it |
| TransactionRepository.ExistsByTransactionId | src/main/java/com/eaglebank/repository/TransactionRepository.java:19 | whether some entry has that id; `ExistsIffFound` ties it to the lookup |
| TransactionRepository.FindByAccountNewestFirst | src/main/java/com/eaglebank/repository/TransactionRepository.java:15 | the account's entries, newest first; `FindByAccountNewestFirstExactly` states it |
| TransactionRepository.Appended | src/main/java/com/eaglebank/domain/Transaction.java:27-41 | a save appends the entry, and is refused exactly when a column constraint is broken or the id is taken; uniqueness of ids is kept |
| TransactionRepository.ExistsIffFound | src/main/java/com/eaglebank/repository/TransactionRepository.java:19 | `existsByTransactionId` holds exactly when `findByTransactionId` finds something |
| TransactionRepository.FindSavedById | src/test/java/com/eaglebank/repository/TransactionRepositoryTest.java:35-66 | with unique ids, looking up a saved entry's id returns that entry with all its fields |
| TransactionRepository.FindByIdAndAccountExactly | src/main/java/com/eaglebank/repository/TransactionRepository.java:17 | the lookup is present only for an entry matching both id and account, and absent exactly when none does |
| TransactionRepository.NotFoundUnderOtherAccount | src/test/java/com/eaglebank/repository/TransactionRepositoryTest.java:115-132 | an id saved under one account is not found under another |
| TransactionRepository.ForAccountExactly | src/main/java/com/eaglebank/repository/TransactionRepository.java:15 | an account's entries are exactly the ledger entries with that account number, each as many times as in the ledger, in ledger order |
| TransactionRepository.ForAccountAppend | src/main/java/com/eaglebank/repository/TransactionRepository.java:15 | appending an entry adds it to its own account's entries and to no other |
| TransactionRepository.InsertSorted | src/main/java/com/eaglebank/repository/TransactionRepository.java:15 | inserting into a newest-first list keeps it newest first and adds exactly that entry |
| TransactionRepository.NewestFirstSortedPermutation | src/main/java/com/eaglebank/repository/TransactionRepository.java:15 | the ordering is non-increasing in creation time and a permutation of its input |
| TransactionRepository.NewestFirstOfChronological | src/main/java/com/eaglebank/repository/TransactionRepository.java:15 | when creation times never decrease, newest first is reverse insertion order |
| TransactionRepository.FindByAccountNewestFirstExactly | src/test/java/com/eaglebank/repository/TransactionRepositoryTest.java:152-166 | the account listing is newest first, holds exactly the account's entries with their multiplicities, as many as there are, and is empty for an account without any |
| TransactionRepository.TotalAppend | src/main/java/com/eaglebank/service/TransactionService.java:123-131 | one more entry moves the net of a run of entries by its signed amount |
| TransactionRepository.NetAppend | src/main/java/com/eaglebank/service/TransactionService.java:123-131 | appending an entry moves its own account's net by its signed amount and no other account's |
| TransactionRepository.AppendedNewestListedFirst | src/main/java/com/eaglebank/repository/TransactionRepository.java:15 | an entry no older than the account's others is listed first, ahead of the previous listing |
| TransactionRepository.Store.Save | src/main/java/com/eaglebank/service/TransactionService.java:61 | the ledger becomes `Appended`'s result, or stays as it was on a refusal; the invariant is kept |
| Users.FindByUserId | src/main/java/com/eaglebank/service/UserService.java:56 | present exactly when the id is stored, and then that user |
| Users.ExistsByEmail | src/main/java/com/eaglebank/service/UserService.java:31 | whether some stored user has the email; `FindByEmail` and `RegisterDuplicateEmail` state what it decides |
| Users.FindByEmail | src/main/java/com/eaglebank/service/UserService.java:64 | present exactly when some stored user has the email, and then such a user |
| Users.FindByEmailUnique | src/main/java/com/eaglebank/service/UserService.java:60-66 | with unique emails, the lookup returns the one user with that email |
| Users.Inserted | src/main/java/com/eaglebank/service/UserService.java:47 | an insert adds the user stamped with both dates, and is refused exactly when the id is taken |
| Users.Touched | src/main/java/com/eaglebank/service/UserService.java:87 | a save over a stored user keeps its creation date and stamps the modification date of a changed row |
| Users.Store.Insert | src/main/java/com/eaglebank/service/UserService.java:47 | the store becomes `Inserted`'s result or stays as it was; the invariant is kept for a new email |
| Users.Store.Update | src/main/java/com/eaglebank/service/UserService.java:87 | only the user under that id is written over; the invariant is kept when id and email are unchanged |
| Users.Store.Delete | src/main/java/com/eaglebank/service/UserService.java:103 | exactly that user is removed; the invariant is kept |
| Security.OwnsAccount | src/main/java/com/eaglebank/security/SecurityService.java:28-42 | false without a principal; true for a missing account; otherwise true exactly when the principal owns the account |
| Security.IsOwner | src/main/java/com/eaglebank/security/SecurityService.java:20-26 | false without a principal, otherwise whether the principal is that user; `OwnsAccountIsOwnerOfOwner` ties it to the account guard |
| Security.ResolveOwnedAccount | src/main/java/com/eaglebank/service/TransactionService.java:103-112 | succeeds exactly for a stored account owned by the caller, with that account; otherwise NotFound for a missing account, Forbidden for someone else's |
| Security.ResolveAgreesWithOwnsAccount | src/main/java/com/eaglebank/security/SecurityService.java:35-37 | an account that resolves passes the guard; one the guard refuses is forbidden; a missing one passes the guard and is then not found |
| Security.OwnsAccountIsOwnerOfOwner | src/main/java/com/eaglebank/security/SecurityService.java:35-36 | for a stored account, owning it is being its owner |
| Requests.Valid | src/main/java/com/eaglebank/dto/request/CreateTransactionRequest.java:10-17 | the bean-validation constraints: an amount from 0.01 to 10000.00 with at most five integer digits, currency "GBP", type "deposit" or "withdrawal"; `ParseValidRequestType` and `PostValidRequestSucceeds` say what such a request does |
| Responses.TransactionResponseFrom | src/main/java/com/eaglebank/dto/response/TransactionResponse.java:19-22 | null maps to null and a transaction to a response |
| Responses.TransactionTypeShownLowerCase | src/main/java/com/eaglebank/dto/response/TransactionResponse.java:27 | DEPOSIT is shown as "deposit" and WITHDRAWAL as "withdrawal" |
| Responses.TransactionResponseLosesOnlyAccount | src/main/java/com/eaglebank/dto/response/TransactionResponse.java:23-31 | two entries of one account have the same response exactly when they are equal: only the account is dropped |
| Responses.BankAccountResponseFrom | src/main/java/com/eaglebank/dto/response/BankAccountResponse.java:20-23 | null maps to null and an account to a response |
| Responses.BankAccountResponseLosesOnlyOwner | src/main/java/com/eaglebank/dto/response/BankAccountResponse.java:24-33 | two rows of one owner have the same response exactly when they are equal; the type is shown as "personal" and parses back |
| TransactionService.ParseTransactionType | src/main/java/com/eaglebank/service/TransactionService.java:114-120 | a deposit exactly when the upper-cased text is "DEPOSIT", a withdrawal exactly for "WITHDRAWAL", otherwise InvalidArgument; a missing type is a null dereference |
| TransactionService.ParseShownType | src/main/java/com/eaglebank/service/TransactionService.java:114-120 | the type a response shows parses back to the entry's type |
| TransactionService.ParseValidRequestType | src/main/java/com/eaglebank/service/TransactionService.java:114-120 | every valid request's type parses, "deposit" to a deposit and "withdrawal" to a withdrawal |
| TransactionService.ApplyToBalance | src/main/java/com/eaglebank/service/TransactionService.java:123-131 | succeeds exactly for a positive amount that, for a withdrawal, the balance covers; a deposit adds it and a withdrawal subtracts it; otherwise InvalidArgument for a missing or non-positive amount and InsufficientFunds with both figures |
| TransactionService.ParseTransactionTypeLetters | src/main/java/com/eaglebank/service/TransactionService.java:114-120 | a deposit exactly for a 7-character text whose characters each upper-case on their own to D, E, P, O, S, I, T, a withdrawal likewise for the 10 letters of WITHDRAWAL |
| TransactionService.Post | src/main/java/com/eaglebank/service/TransactionService.java:36-65 | `createTransaction` on the two stores: ownership, then type, then balance, then both writes; its effects are `PostedEffect`, its refusals `PostUnknownAccount`, `PostForbiddenFirst`, `PostBadType`, `PostInsufficientFunds` |
| TransactionService.PostUnknownAccount | src/main/java/com/eaglebank/service/TransactionService.java:104-105 | an unknown account is NotFound whatever the request, and nothing is written |
| TransactionService.PostForbiddenFirst | src/main/java/com/eaglebank/service/TransactionService.java:42-45 | someone else's account is Forbidden whatever the type, amount or balance |
| TransactionService.PostBadType | src/main/java/com/eaglebank/service/TransactionService.java:45 | on an owned account an unknown type is InvalidArgument and a missing one a null dereference |
| TransactionService.PostInsufficientFunds | src/main/java/com/eaglebank/service/TransactionService.java:58-62 | an over-large withdrawal is InsufficientFunds with both figures, and neither the entry nor the account is saved |
| TransactionService.PostedEffect | src/main/java/com/eaglebank/service/TransactionService.java:48-62 | a posting appends exactly one entry with the generated id, the request's amount, currency, type and reference, the account and the caller as its owner; only that account changes, its balance by ± the amount |
| TransactionService.PostPreservesInvariants | src/main/java/com/eaglebank/service/TransactionService.java:36-65 | a posting keeps every balance non-negative and both stores' invariants |
| TransactionService.PostValidRequestSucceeds | src/main/java/com/eaglebank/service/TransactionService.java:36-65 | a valid request on an owned account succeeds when its id is new, its reference fits, a withdrawal is covered by the balance and a deposit leaves a balance that fits |
| TransactionService.DepositThenWithdrawScenario | src/main/java/com/eaglebank/service/TransactionService.java:123-131 | 50.00 plus a 100.00 deposit is 150.00, less a 30.00 withdrawal is 120.00, with two ledger entries |
| TransactionService.ListTransactions | src/main/java/com/eaglebank/service/TransactionService.java:67-85 | fails exactly when the ownership check fails, with its error |
| TransactionService.ListTransactionsExactly | src/main/java/com/eaglebank/service/TransactionService.java:73-84 | the owner's listing is newest first, shows every entry of the account and nothing else, one response per entry, and is empty without entries |
| TransactionService.ResponsesOfEntries | src/main/java/com/eaglebank/service/TransactionService.java:79-81 | the responses of a newest-first run of an account's entries are newest first and show each of those entries and nothing else |
| TransactionService.EntryKeepsReconciled | src/main/java/com/eaglebank/service/TransactionService.java:48-62 | appending an entry to a stored account and moving that balance, and no other, by the entry's signed amount keeps every balance equal to its account's net |
| TransactionService.PostKeepsReconciled | src/main/java/com/eaglebank/service/TransactionService.java:36-65 | a posting keeps every entry on a stored account and every balance equal to the net of its account's entries |
| TransactionService.FundedAccountHasEntries | src/main/java/com/eaglebank/domain/Transaction.java:43-45 | when balances agree with the ledger, an account holding money has at least one entry |
| TransactionService.GetTransaction | src/main/java/com/eaglebank/service/TransactionService.java:87-101 | ownership failures come first; a result is an entry with that id in that account; otherwise NotFound |
| TransactionService.GetTransactionOfOtherAccount | src/main/java/com/eaglebank/service/TransactionService.java:95-98 | an id stored under another account is NotFound, not Forbidden; an entry of the account is returned |
| TransactionService.TransactionService.UpdateAccountBalance | src/main/java/com/eaglebank/service/TransactionService.java:123-131 | the loaded account's balance changes exactly as `ApplyToBalance` says |
| TransactionService.TransactionService.CreateTransaction | src/main/java/com/eaglebank/service/TransactionService.java:36-65 | the stores become what `Post` says, both or neither; the response is the new entry's; both invariants are kept |
| AccountService.FirstFreeMeaning | src/main/java/com/eaglebank/service/AccountService.java:136-147 | the loop returns the first candidate among draws 0..99 not already stored; when all are taken it fails with Conflict on the 101st draw |
| AccountService.GenerateUniqueAccountNumber | src/main/java/com/eaglebank/service/AccountService.java:136-147 | returns what `FirstFree` says and the number of draws consumed; a returned number is well-formed and not stored |
| AccountService.OpenUnknownUser | src/main/java/com/eaglebank/service/AccountService.java:40-41 | an unknown user is NotFound, draws nothing and saves nothing |
| AccountService.Open | src/main/java/com/eaglebank/service/AccountService.java:36-60 | a refused opening leaves the account table as it was |
| AccountService.OpenSucceeded | src/main/java/com/eaglebank/service/AccountService.java:44-56 | a successful opening found the user, a free number, a name and a known type, and saved exactly the new row, stamped with the clock reading, under that number |
| AccountService.OpenedAccount | src/main/java/com/eaglebank/service/AccountService.java:46-56 | a new account has a fresh, well-formed number, sort code "10-10-10", currency "GBP", balance 0, the caller as owner, the requested name and type; it is the only row added; a refusal saves nothing |
| AccountService.OpenPreservesConsistent | src/main/java/com/eaglebank/service/AccountService.java:36-60 | opening keeps the table's invariant and the owner then has accounts |
| AccountService.ListAccountsExactly | src/main/java/com/eaglebank/service/AccountService.java:62-72 | the listing shows exactly the user's accounts, one response each, as many as the count |
| AccountService.ListAccounts | src/main/java/com/eaglebank/service/AccountService.java:62-72 | one response per account of the user; `ListAccountsExactly` states it |
| AccountService.HasAccounts | src/main/java/com/eaglebank/service/AccountService.java:74-78 | whether the user's count is positive; `HasAccountsIffOwnsSome` states it |
| AccountService.HasAccountsIffOwnsSome | src/main/java/com/eaglebank/service/AccountService.java:74-78 | a user has accounts exactly when some stored account is theirs |
| AccountService.GetAccountByAccountNumber | src/main/java/com/eaglebank/service/AccountService.java:80-93 | the caller's own account's response; NotFound for a missing account, Forbidden for someone else's |
| AccountService.Amended | src/main/java/com/eaglebank/service/AccountService.java:106-113 | a provided name or type replaces the old one, an absent or blank one leaves it; nothing else changes; an unknown type is InvalidArgument |
| AccountService.Update | src/main/java/com/eaglebank/service/AccountService.java:95-119 | `updateAccount` on the table: ownership, then the amendment, then the save; the response is the amended entity before the flush stamps it; `UpdateEffect` states it |
| AccountService.UpdateEffect | src/main/java/com/eaglebank/service/AccountService.java:95-119 | NotFound or Forbidden change nothing; a success changes only that account, as `Amended` says; the stored row is restamped exactly when something changed, and the response shows the previous modification date |
| AccountService.Remove | src/main/java/com/eaglebank/service/AccountService.java:121-134 | an owned account without ledger entries is removed and nothing else; any refusal changes nothing: NotFound, Forbidden, or ConstraintViolation when entries refer to it |
| AccountService.RemoveRefusedWithEntries | src/main/java/com/eaglebank/domain/Transaction.java:43-45 | an owned account that some ledger entry refers to cannot be deleted: ConstraintViolation and nothing changes |
| AccountService.RemoveFundedRefused | src/main/java/com/eaglebank/service/AccountService.java:124-132 | when balances agree with the ledger, an owned account holding money is refused, although the code never checks the balance |
| AccountService.RemoveWithoutEntries | src/main/java/com/eaglebank/service/AccountService.java:124-132 | an owned account without entries is removed, and the owner has one account fewer |
| AccountService.UnstoredHasNoEntries | src/main/java/com/eaglebank/domain/Transaction.java:43-45 | when balances agree with the ledger, a number no stored account has has no entries |
| AccountService.OpenKeepsReconciled | src/main/java/com/eaglebank/service/AccountService.java:36-60 | opening an account keeps the balances in agreement with the ledger |
| AccountService.UpdateKeepsReconciled | src/main/java/com/eaglebank/service/AccountService.java:95-119 | updating an account keeps the balances in agreement with the ledger |
| AccountService.RemoveKeepsReconciled | src/main/java/com/eaglebank/service/AccountService.java:121-134 | deleting an account keeps the balances in agreement with the ledger |
| AccountService.AccountService.CreateAccount | src/main/java/com/eaglebank/service/AccountService.java:36-60 | the table becomes what `Open` says, the response is the saved row's; the invariant is kept |
| AccountService.AccountService.UpdateAccount | src/main/java/com/eaglebank/service/AccountService.java:95-119 | the table becomes what `Update` says, through the entity's update methods, and the response is the amended entity's; the invariant is kept |
| AccountService.AccountService.DeleteAccount | src/main/java/com/eaglebank/service/AccountService.java:121-134 | the table becomes what `Remove` says, consulting the ledger; the invariant is kept |
| UserService.Register | src/main/java/com/eaglebank/service/UserService.java:28-51 | `createUser` on the store: Conflict for a taken email, otherwise the new user; `RegisterDuplicateEmail` and `Registered` state it |
| UserService.RegisterDuplicateEmail | src/main/java/com/eaglebank/service/UserService.java:31-33 | a taken email is Conflict and nothing is saved |
| UserService.Registered | src/main/java/com/eaglebank/service/UserService.java:35-47 | a new user is stored under the generated id with the request's fields and the encoded password, nobody else changes, and the user is then found by email |
| UserService.GetUserById | src/main/java/com/eaglebank/service/UserService.java:52-58 | the stored user's response, or NotFound exactly for an unknown id |
| UserService.FindUserByEmail | src/main/java/com/eaglebank/service/UserService.java:60-66 | a user with that email, or NotFound exactly when there is none |
| UserService.Revised | src/main/java/com/eaglebank/service/UserService.java:74-85 | a present non-blank name or phone and a present address replace the old ones; id, email and password never change |
| UserService.Revise | src/main/java/com/eaglebank/service/UserService.java:68-91 | `updateUser` on the store: NotFound, or the revised user, responding with it before the flush stamps it; `ReviseEffect` states it |
| UserService.ReviseEffect | src/main/java/com/eaglebank/service/UserService.java:68-91 | an unknown id is NotFound; a success changes only that user, as `Revised` says; the stored row is restamped exactly when something changed, and the response shows the previous modification date; an empty update changes nothing |
| UserService.Unregister | src/main/java/com/eaglebank/service/UserService.java:93-105 | a success removes exactly that user; a refusal changes nothing |
| UserService.UnregisterEffect | src/main/java/com/eaglebank/service/UserService.java:96-103 | an unknown user is NotFound; a user owning an account is Conflict and kept; a user owning none is removed |
| UserService.UserService.CreateUser | src/main/java/com/eaglebank/service/UserService.java:28-51 | the store becomes what `Register` says; the invariant is kept |
| UserService.UserService.UpdateUser | src/main/java/com/eaglebank/service/UserService.java:68-91 | the store becomes what `Revise` says, field by field, and the response is the revised user's; the invariant is kept |
| UserService.UserService.DeleteUser | src/main/java/com/eaglebank/service/UserService.java:93-105 | the store becomes what `Unregister` says, asking the account service about accounts; the invariant is kept |

## Left out

- Controllers, request routing and the `@PreAuthorize` wiring are not modelled. The guard predicates and the service checks behind them are.
- JWT issuing and checking, the authentication filter and sign-in are not modelled: they rest on signing and password-encoding libraries. The principal is an optional user id and the encoded password an opaque string.
- The mapping of exceptions to HTTP statuses is transport plumbing. The model stops at the `Error` value.
- `@Version` optimistic locking is not modelled. It is framework-managed and the code never retries.
- `@Transactional` is modelled as all-or-nothing: a posting checks both writes and makes both or neither. Concurrent interleavings are not modelled.
- The auditing clock, `Random` and `UUID` are inputs. Entropy and the probability of collisions are not modelled.
- `toUpperCase`/`toLowerCase` assume a locale without special rules, such as the Turkish dotted and dotless i. The model gives the upper case of every character whose upper case is ASCII only: the ASCII letters, 'ı' and 'ſ', sharp s (SS) and the ligatures U+FB00–FB06 (FF, FI, FL, FFI, FFL, ST, ST). Every other non-ASCII character keeps itself, where Java gives another non-ASCII upper case (sometimes several characters, as for 'ŉ'). Either way the text then holds a non-ASCII character, so it is not a type name, and every parse result is the one Java gives; only the upper-cased text itself differs.
- Text.ToLower: models `toLowerCase` on ASCII only, because it is applied only to the enum names.
- Amounts with more than two fraction digits cannot be written in integer pence. The `@Digits(fraction = 2)` constraint refuses them anyway.
- User.java and UserRepository.java are not part of this model. User ids are assumed unique in the store, so an insert on a taken id is a constraint violation. Other user-table column constraints are not modelled.
- Users.FindByEmail: when several stored users share an email, it returns one of them, where the database query would fail. The service only ever stores distinct emails (`Registered`, `ReviseEffect`).
- `createUser` reads `request.password()`, which the sign-up request record does not declare. The encoded password is a parameter and the encoder is left out.
- The bean-validation constraints of the sign-up, account and update requests are not modelled. The sign-up request's text fields are taken as present.
- A valid transaction request may carry a reference longer than the 255-character column. Such a posting is refused by the database, which is why `PostValidRequestSucceeds` requires a reference that fits.
- Entity references (a transaction's account and user, an account's user) are kept as the keys they join on. The foreign key from an entry to its account is checked on account deletion (`Remove`). The one from an entry to its user is not checked on user deletion (`Unregister`): a user can only be deleted without accounts, and an account with entries cannot be deleted.
- The ledger invariant `Reconciled` (every balance is the net of its account's entries) is proved to be kept by posting, opening, updating and deleting. Accounts written by other means, such as seeded data, are outside it.
- The list wrappers (`ListTransactionsResponse`, `ListBankAccountsResponse`) are left out; the lists themselves are returned. The account listing is a set, because the query does not fix an order.
- Entries created at the same instant are listed most recently inserted first. The source leaves their order to the database.
- Logging is not modelled.
