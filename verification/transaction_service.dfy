/**
 * TransactionService: posting a deposit or withdrawal to an account, listing an account's ledger and fetching
 * one entry. A posting resolves the account (NotFound), checks that the caller owns it (Forbidden), parses the
 * type, changes the loaded account's balance, and then writes the new ledger entry and the account in one
 * database transaction: both writes happen or, when either is refused or anything before them fails, neither.
 * The transaction id's UUID and the clock reading are inputs.
 */
module TransactionService {
  import opened Common
  import opened Text
  import opened IdGenerator
  import opened Transactions
  import opened Accounts
  import opened Requests
  import opened Responses
  import AR = BankAccountRepository
  import TR = TransactionRepository
  import opened Security

  /** `parseTransactionType`: the upper-cased text must name a type exactly; an unknown name is an invalid
      argument, and a missing one dereferences null. */
  function ParseTransactionType(s: Option<string>): (r: Result<TransactionType>)
    ensures s.None? ==> r == Failure(NullReference)
    ensures s.Some? ==> (r == Success(Deposit) <==> ToUpper(s.value) == "DEPOSIT")
    ensures s.Some? ==> (r == Success(Withdrawal) <==> ToUpper(s.value) == "WITHDRAWAL")
    ensures s.Some? && r.Failure? ==> r.error == InvalidArgument
  {
    match s
    case None => Failure(NullReference)
    case Some(t) =>
      var u := ToUpper(t);
      if u == TypeName(Deposit) then Success(Deposit)
      else if u == TypeName(Withdrawal) then Success(Withdrawal)
      else Failure(InvalidArgument)
  }

  /** The lower-case name a response shows parses back to the same type. */
  lemma ParseShownType(t: TransactionType)
    ensures ParseTransactionType(Some(TransactionResponseOf(Transaction("", 0, None, t, None, "", "", 0)).transactionType))
         == Success(t)
  {
    UpperOfLower(TypeName(t));
  }

  /** A valid request's type parses: "deposit" to a deposit and "withdrawal" to a withdrawal. */
  lemma ParseValidRequestType(r: CreateTransactionRequest)
    requires Valid(r)
    ensures ParseTransactionType(r.transactionType).Success?
    ensures ParseTransactionType(r.transactionType).value == (if r.transactionType == Some("deposit") then Deposit else Withdrawal)
  {
    UpperOfLower(TypeName(Deposit));
    UpperOfLower(TypeName(Withdrawal));
    assert ToLower(TypeName(Deposit)) == "deposit";
    assert ToLower(TypeName(Withdrawal)) == "withdrawal";
    assert ToUpper("deposit") == "DEPOSIT" && ToUpper("withdrawal") == "WITHDRAWAL";
  }

  /** No multi-letter upper case occurs inside the type names. */
  lemma TypeNamesPlain()
    ensures PlainName("DEPOSIT") && PlainName("WITHDRAWAL")
  {
    var d, w := "DEPOSIT", "WITHDRAWAL";
    assert IsUpperAscii(d) && IsUpperAscii(w);
    forall i | 0 <= i < |d| - 1 ensures !ExpansionPair(d[i], d[i + 1]) {
      assert d[i] != 'F' && (d[i] == 'S' ==> d[i + 1] == 'I');
    }
    forall i | 0 <= i < |w| - 1 ensures !ExpansionPair(w[i], w[i + 1]) {
      assert w[i] != 'S' && w[i] != 'F';
    }
  }

  /** Which texts name a type: the type's name letter for letter, in any case, without sharp s or ligatures;
      the multi-letter upper cases never produce DEPOSIT or WITHDRAWAL. */
  lemma ParseTransactionTypeLetters(s: string)
    ensures ParseTransactionType(Some(s)) == Success(Deposit)
        <==> |s| == 7 && forall i :: 0 <= i < |s| ==> !Expands(s[i]) && UpperChar(s[i]) == "DEPOSIT"[i]
    ensures ParseTransactionType(Some(s)) == Success(Withdrawal)
        <==> |s| == 10 && forall i :: 0 <= i < |s| ==> !Expands(s[i]) && UpperChar(s[i]) == "WITHDRAWAL"[i]
  {
    TypeNamesPlain();
    ToUpperIsPlainName(s, "DEPOSIT");
    ToUpperIsPlainName(s, "WITHDRAWAL");
  }

  /** `updateAccountBalance` as a function of the balance: a positive amount is added by a deposit and
      subtracted by a withdrawal it does not exceed; otherwise the invalid argument or the shortfall. */
  function ApplyToBalance(t: TransactionType, balance: int, amount: Option<int>): (r: Result<int>)
    ensures r.Success? <==> amount.Some? && amount.value > 0 && (t == Withdrawal ==> amount.value <= balance)
    ensures r.Success? ==> r.value == (if t == Deposit then balance + amount.value else balance - amount.value)
    ensures r.Failure? ==> r.error == (if amount.None? || amount.value <= 0 then InvalidArgument
                                       else InsufficientFunds(balance, amount.value))
  {
    match t
    case Deposit => Credit(balance, amount)
    case Withdrawal => Debit(balance, amount)
  }

  /** The ledger entry a posting writes: the generated id, the request's amount, currency and reference, the
      parsed type, the account and its owner, and the clock reading. */
  function NewEntry(a: AccountRecord, request: CreateTransactionRequest, t: TransactionType, uuid: Uuid, now: nat)
    : Transaction
  {
    Transaction(TransactionId(uuid), request.amount.GetOr(0), request.currency, t, request.reference,
                a.accountNumber, a.ownerId, now)
  }

  /** What a posting does to the two stores. */
  datatype Posting =
    | Posted(accounts: AR.AccountTable, ledger: TR.Ledger, entry: Transaction)
    | Rejected(error: Error)

  /** `createTransaction` as a function of the stores before it. */
  function Post(m: AR.AccountTable, l: TR.Ledger, accountNumber: string, request: CreateTransactionRequest,
                userId: string, uuid: Uuid, now: nat): Posting
  {
    match ResolveOwnedAccount(m, accountNumber, userId)
    case Failure(e) => Rejected(e)
    case Success(a) =>
      match ParseTransactionType(request.transactionType)
      case Failure(e) => Rejected(e)
      case Success(t) =>
        match ApplyToBalance(t, a.balance, request.amount)
        case Failure(e) => Rejected(e)
        case Success(b) =>
          var entry := NewEntry(a, request, t, uuid, now);
          match TR.Appended(l, entry)
          case Failure(e) => Rejected(e)
          case Success(l2) =>
            match AR.Saved(m, a.(balance := b), now)
            case Failure(e) => Rejected(e)
            case Success(m2) => Posted(m2, l2, entry)
  }

  // ----- properties of a posting -----

  /** An unknown account number is not found, whatever the request. */
  lemma PostUnknownAccount(m: AR.AccountTable, l: TR.Ledger, accountNumber: string, request: CreateTransactionRequest,
                           userId: string, uuid: Uuid, now: nat)
    requires accountNumber !in m
    ensures Post(m, l, accountNumber, request, userId, uuid, now) == Rejected(NotFound)
  {
  }

  /** Someone else's account is forbidden before the request is looked at: the type, the amount and the
      balance play no part. */
  lemma PostForbiddenFirst(m: AR.AccountTable, l: TR.Ledger, accountNumber: string, request: CreateTransactionRequest,
                           userId: string, uuid: Uuid, now: nat)
    requires accountNumber in m && m[accountNumber].ownerId != userId
    ensures Post(m, l, accountNumber, request, userId, uuid, now) == Rejected(Forbidden)
  {
  }

  /** On an owned account, a type that does not name DEPOSIT or WITHDRAWAL once upper-cased is an invalid
      argument, and a missing type a null dereference; in both cases nothing is written. */
  lemma PostBadType(m: AR.AccountTable, l: TR.Ledger, accountNumber: string, request: CreateTransactionRequest,
                    userId: string, uuid: Uuid, now: nat)
    requires accountNumber in m && m[accountNumber].ownerId == userId
    requires request.transactionType.None?
          || (ToUpper(request.transactionType.value) != "DEPOSIT" && ToUpper(request.transactionType.value) != "WITHDRAWAL")
    ensures Post(m, l, accountNumber, request, userId, uuid, now)
         == Rejected(if request.transactionType.None? then NullReference else InvalidArgument)
  {
  }

  /** Withdrawing more than the balance is refused with both figures, and nothing is written. */
  lemma PostInsufficientFunds(m: AR.AccountTable, l: TR.Ledger, accountNumber: string, request: CreateTransactionRequest,
                              userId: string, uuid: Uuid, now: nat)
    requires accountNumber in m && m[accountNumber].ownerId == userId
    requires ParseTransactionType(request.transactionType) == Success(Withdrawal)
    requires request.amount.Some? && 0 < request.amount.value && m[accountNumber].balance < request.amount.value
    ensures Post(m, l, accountNumber, request, userId, uuid, now)
         == Rejected(InsufficientFunds(m[accountNumber].balance, request.amount.value))
  {
  }

  /** A successful posting appends exactly one entry, built from the request and owned by the account's owner,
      and changes exactly one account: its balance moves by the amount and its modification date is stamped.
      Every other account, and every earlier entry, is unchanged. */
  lemma PostedEffect(m: AR.AccountTable, l: TR.Ledger, accountNumber: string, request: CreateTransactionRequest,
                     userId: string, uuid: Uuid, now: nat)
    requires AR.KeyedByNumber(m)
    requires Post(m, l, accountNumber, request, userId, uuid, now).Posted?
    ensures var p := Post(m, l, accountNumber, request, userId, uuid, now);
      && accountNumber in m && m[accountNumber].ownerId == userId
      && p.ledger == l + [p.entry]
      && p.entry.transactionId == TransactionId(uuid)
      && request.amount == Some(p.entry.amount) && p.entry.amount > 0
      && p.entry.currency == request.currency && p.entry.reference == request.reference
      && ParseTransactionType(request.transactionType) == Success(p.entry.transactionType)
      && p.entry.accountNumber == accountNumber && p.entry.userId == userId && p.entry.createdAt == now
      && p.accounts.Keys == m.Keys
      && (forall k :: k in m && k != accountNumber ==> p.accounts[k] == m[k])
      && p.accounts[accountNumber].balance
         == (if p.entry.transactionType == Deposit then m[accountNumber].balance + p.entry.amount
             else m[accountNumber].balance - p.entry.amount)
      && p.accounts[accountNumber] == m[accountNumber].(balance := p.accounts[accountNumber].balance, updatedAt := now)
  {
    var a := m[accountNumber];
    var t := ParseTransactionType(request.transactionType).value;
    var b := ApplyToBalance(t, a.balance, request.amount).value;
    assert a.(balance := b) != a;
  }

  /** A posting never makes a balance negative, and keeps both stores' invariants. */
  lemma PostPreservesInvariants(m: AR.AccountTable, l: TR.Ledger, accountNumber: string, request: CreateTransactionRequest,
                                userId: string, uuid: Uuid, now: nat)
    requires AR.Consistent(m) && TR.Consistent(l)
    requires forall k :: k in m ==> m[k].balance >= 0
    ensures var p := Post(m, l, accountNumber, request, userId, uuid, now);
      p.Posted? ==> AR.Consistent(p.accounts) && TR.Consistent(p.ledger) && forall k :: k in p.accounts ==> p.accounts[k].balance >= 0
  {
    var p := Post(m, l, accountNumber, request, userId, uuid, now);
    if p.Posted? {
      PostedEffect(m, l, accountNumber, request, userId, uuid, now);
    }
  }

  /** A valid request on an owned account succeeds when its id is new, its reference fits the column (the
      request constraints leave the reference free, the table does not), a withdrawal is covered by the
      balance and a deposit leaves a balance that fits the column. */
  lemma PostValidRequestSucceeds(m: AR.AccountTable, l: TR.Ledger, accountNumber: string,
                                 request: CreateTransactionRequest, userId: string, uuid: Uuid, now: nat)
    requires AR.Consistent(m) && Valid(request)
    requires accountNumber in m && m[accountNumber].ownerId == userId
    requires !TR.ExistsByTransactionId(l, TransactionId(uuid))
    requires request.reference.Some? ==> |request.reference.value| <= ReferenceLength
    requires m[accountNumber].balance >= 0
    requires request.transactionType == Some("withdrawal") ==> request.amount.value <= m[accountNumber].balance
    requires request.transactionType == Some("deposit") ==> m[accountNumber].balance + request.amount.value < BalanceLimit
    ensures Post(m, l, accountNumber, request, userId, uuid, now).Posted?
  {
    ParseValidRequestType(request);
    TransactionIdFormat(uuid);
    TypeNamesDistinct(Deposit, Withdrawal);
  }

  /** 50.00 in an account plus a 100.00 deposit gives 150.00; then a 30.00 withdrawal gives 120.00. */
  lemma DepositThenWithdrawScenario(a: AccountRecord, userId: string, u1: Uuid, u2: Uuid, now: nat)
    requires AR.Consistent(map[a.accountNumber := a])
    requires a.ownerId == userId && a.balance == 5000
    requires TransactionId(u1) != TransactionId(u2)
    ensures var m := map[a.accountNumber := a];
      var p := Post(m, [], a.accountNumber, CreateTransactionRequest(Some(10000), Some("GBP"), Some("deposit"), None),
                    userId, u1, now);
      && p.Posted? && p.accounts[a.accountNumber].balance == 15000
      && var q := Post(p.accounts, p.ledger, a.accountNumber,
                       CreateTransactionRequest(Some(3000), Some("GBP"), Some("withdrawal"), None), userId, u2, now + 1);
         q.Posted? && q.accounts[a.accountNumber].balance == 12000 && |q.ledger| == 2
  {
    var m := map[a.accountNumber := a];
    var deposit := CreateTransactionRequest(Some(10000), Some("GBP"), Some("deposit"), None);
    var withdrawal := CreateTransactionRequest(Some(3000), Some("GBP"), Some("withdrawal"), None);
    PostValidRequestSucceeds(m, [], a.accountNumber, deposit, userId, u1, now);
    ParseValidRequestType(deposit);
    PostedEffect(m, [], a.accountNumber, deposit, userId, u1, now);
    var p := Post(m, [], a.accountNumber, deposit, userId, u1, now);
    PostPreservesInvariants(m, [], a.accountNumber, deposit, userId, u1, now);
    assert p.ledger == [p.entry];
    PostValidRequestSucceeds(p.accounts, p.ledger, a.accountNumber, withdrawal, userId, u2, now + 1);
    ParseValidRequestType(withdrawal);
    PostedEffect(p.accounts, p.ledger, a.accountNumber, withdrawal, userId, u2, now + 1);
  }

  // ----- the balances agree with the ledger -----

  /** Every entry belongs to a stored account, and every stored balance is the net of its account's entries:
      balances start at zero and only postings move them. */
  predicate Reconciled(m: AR.AccountTable, l: TR.Ledger) {
    && (forall i :: 0 <= i < |l| ==> l[i].accountNumber in m)
    && (forall k :: k in m ==> m[k].balance == TR.Total(TR.ForAccount(l, k)))
  }

  /** A posting moves the account's balance by the entry it appends, so the two stores stay reconciled. */
  lemma PostKeepsReconciled(m: AR.AccountTable, l: TR.Ledger, accountNumber: string, request: CreateTransactionRequest,
                            userId: string, uuid: Uuid, now: nat)
    requires AR.KeyedByNumber(m) && Reconciled(m, l)
    ensures var p := Post(m, l, accountNumber, request, userId, uuid, now);
      p.Posted? ==> Reconciled(p.accounts, p.ledger)
  {
    var p := Post(m, l, accountNumber, request, userId, uuid, now);
    if p.Posted? {
      PostedEffect(m, l, accountNumber, request, userId, uuid, now);
      EntryKeepsReconciled(m, l, p.entry, p.accounts);
    }
  }

  /** Appending an entry to a stored account and moving that account's balance by the entry's signed amount,
      and no other balance, keeps the stores in agreement. */
  lemma EntryKeepsReconciled(m: AR.AccountTable, l: TR.Ledger, t: Transaction, m2: AR.AccountTable)
    requires Reconciled(m, l) && t.accountNumber in m && m2.Keys == m.Keys
    requires forall k :: k in m && k != t.accountNumber ==> m2[k].balance == m[k].balance
    requires m2[t.accountNumber].balance == m[t.accountNumber].balance + TR.Signed(t)
    ensures Reconciled(m2, l + [t])
  {
    forall k | k in m2 ensures m2[k].balance == TR.Total(TR.ForAccount(l + [t], k)) {
      TR.NetAppend(l, t, k);
    }
    forall i | 0 <= i < |l + [t]| ensures (l + [t])[i].accountNumber in m2 {
      if i < |l| {
        assert (l + [t])[i] == l[i];
      }
    }
  }

  /** In reconciled stores an account with money in it has ledger entries. */
  lemma FundedAccountHasEntries(m: AR.AccountTable, l: TR.Ledger, accountNumber: string)
    requires Reconciled(m, l) && accountNumber in m && m[accountNumber].balance != 0
    ensures TR.ForAccount(l, accountNumber) != []
    ensures exists i :: 0 <= i < |l| && l[i].accountNumber == accountNumber
  {
    TR.ForAccountExactly(l, accountNumber);
    var f := TR.ForAccount(l, accountNumber);
    assert f[0] in f;
    var i :| 0 <= i < |l| && l[i] == f[0];
  }

  // ----- reads -----

  /** `listTransactions`: the owner's view of the account's ledger, newest first. */
  function ListTransactions(m: AR.AccountTable, l: TR.Ledger, accountNumber: string, userId: string)
    : (r: Result<seq<TransactionResponse>>)
    ensures r.Failure? <==> ResolveOwnedAccount(m, accountNumber, userId).Failure?
    ensures r.Failure? ==> r.error == ResolveOwnedAccount(m, accountNumber, userId).error
  {
    match ResolveOwnedAccount(m, accountNumber, userId)
    case Failure(e) => Failure(e)
    case Success(_) =>
      Success(ResponsesOf(TR.FindByAccountNewestFirst(l, accountNumber)))
  }

  /** The response of each entry, in order. */
  function ResponsesOf(entries: TR.Ledger): (rs: seq<TransactionResponse>)
    ensures |rs| == |entries|
    ensures forall i :: 0 <= i < |entries| ==> rs[i] == TransactionResponseOf(entries[i])
  {
    seq(|entries|, i requires 0 <= i < |entries| => TransactionResponseOf(entries[i]))
  }

  /** The listing shows each of the account's entries and nothing else, newest first; an account without
      entries lists nothing. */
  lemma ListTransactionsExactly(m: AR.AccountTable, l: TR.Ledger, accountNumber: string, userId: string)
    requires accountNumber in m && m[accountNumber].ownerId == userId
    ensures var r := ListTransactions(m, l, accountNumber, userId);
      && r.Success?
      && (forall i, j :: 0 <= i < j < |r.value| ==> r.value[i].createdTimestamp >= r.value[j].createdTimestamp)
      && (forall x :: x in r.value ==> exists t :: t in l && t.accountNumber == accountNumber && x == TransactionResponseOf(t))
      && (forall t :: t in l && t.accountNumber == accountNumber ==> TransactionResponseOf(t) in r.value)
      && ((forall t :: t in l ==> t.accountNumber != accountNumber) ==> r.value == [])
      && |r.value| == |TR.ForAccount(l, accountNumber)|
  {
    var entries := TR.FindByAccountNewestFirst(l, accountNumber);
    TR.FindByAccountNewestFirstExactly(l, accountNumber);
    ResponsesOfEntries(l, accountNumber, entries);
  }

  /** The responses of a newest-first run holding exactly an account's entries are newest first and show
      each of those entries and nothing else. */
  lemma ResponsesOfEntries(l: TR.Ledger, accountNumber: string, entries: TR.Ledger)
    requires TR.NonIncreasingCreatedAt(entries)
    requires forall t :: t in entries <==> t in l && t.accountNumber == accountNumber
    ensures forall i, j :: 0 <= i < j < |ResponsesOf(entries)| ==>
              ResponsesOf(entries)[i].createdTimestamp >= ResponsesOf(entries)[j].createdTimestamp
    ensures forall x :: x in ResponsesOf(entries) ==>
              exists t :: t in l && t.accountNumber == accountNumber && x == TransactionResponseOf(t)
    ensures forall t :: t in l && t.accountNumber == accountNumber ==> TransactionResponseOf(t) in ResponsesOf(entries)
  {
    forall x | x in ResponsesOf(entries)
      ensures exists t :: t in l && t.accountNumber == accountNumber && x == TransactionResponseOf(t)
    {
      var i :| 0 <= i < |entries| && ResponsesOf(entries)[i] == x;
      assert entries[i] in entries;
    }
    forall t | t in l && t.accountNumber == accountNumber ensures TransactionResponseOf(t) in ResponsesOf(entries) {
      var i :| 0 <= i < |entries| && entries[i] == t;
      assert ResponsesOf(entries)[i] == TransactionResponseOf(t);
    }
  }

  /** `getTransaction`: the entry with that id in that account, for the account's owner. */
  function GetTransaction(m: AR.AccountTable, l: TR.Ledger, accountNumber: string, transactionId: string,
                          userId: string): (r: Result<TransactionResponse>)
    ensures ResolveOwnedAccount(m, accountNumber, userId).Failure? ==> r == Failure(ResolveOwnedAccount(m, accountNumber, userId).error)
    ensures r.Success? ==> exists t :: t in l && t.transactionId == transactionId && t.accountNumber == accountNumber
                                       && r.value == TransactionResponseOf(t)
    ensures r.Failure? && ResolveOwnedAccount(m, accountNumber, userId).Success? ==> r.error == NotFound
  {
    TR.FindByIdAndAccountExactly(l, transactionId, accountNumber);
    match ResolveOwnedAccount(m, accountNumber, userId)
    case Failure(e) => Failure(e)
    case Success(_) =>
      match TR.FindByTransactionIdAndAccountNumber(l, transactionId, accountNumber)
      case None => Failure(NotFound)
      case Some(t) => Success(TransactionResponseOf(t))
  }

  /** An id that is stored under another account is reported as not found, not as forbidden; a stored entry of
      the account is returned. */
  lemma GetTransactionOfOtherAccount(m: AR.AccountTable, l: TR.Ledger, accountNumber: string, userId: string, i: nat)
    requires TR.UniqueIds(l) && i < |l|
    requires accountNumber in m && m[accountNumber].ownerId == userId
    ensures l[i].accountNumber != accountNumber ==> GetTransaction(m, l, accountNumber, l[i].transactionId, userId) == Failure(NotFound)
    ensures l[i].accountNumber == accountNumber ==> GetTransaction(m, l, accountNumber, l[i].transactionId, userId) == Success(TransactionResponseOf(l[i]))
  {
    if l[i].accountNumber != accountNumber {
      TR.NotFoundUnderOtherAccount(l, i, accountNumber);
    } else {
      TR.FindByIdAndAccountExactly(l, l[i].transactionId, accountNumber);
      var r := TR.FindByTransactionIdAndAccountNumber(l, l[i].transactionId, accountNumber);
      var j :| 0 <= j < |l| && l[j] == r.value;
      if j != i {
        if j < i { assert l[j].transactionId != l[i].transactionId; }
        else { assert l[i].transactionId != l[j].transactionId; }
      }
    }
  }

  class TransactionService {
    const accounts: AR.Store
    const transactions: TR.Store

    constructor (accounts: AR.Store, transactions: TR.Store)
      ensures this.accounts == accounts && this.transactions == transactions
    {
      this.accounts := accounts;
      this.transactions := transactions;
    }

    /** `updateAccountBalance`: deposits into or withdraws from the loaded account. */
    static method UpdateAccountBalance(account: BankAccount, t: TransactionType, amount: Option<int>)
      returns (outcome: Outcome)
      modifies account`balance
      ensures outcome == ApplyToBalance(t, old(account.balance), amount).ToOutcome()
      ensures account.balance == ApplyToBalance(t, old(account.balance), amount).GetOr(old(account.balance))
    {
      if t == Deposit {
        outcome := account.Deposit(amount);
      } else {
        outcome := account.Withdraw(amount);
      }
    }

    /** `createTransaction`: posts the request and returns the response for the new entry. */
    method CreateTransaction(accountNumber: string, request: CreateTransactionRequest, userId: string,
                             uuid: Uuid, now: nat) returns (r: Result<TransactionResponse>)
      modifies accounts, transactions
      ensures var p := Post(old(accounts.accounts), old(transactions.ledger), accountNumber, request, userId, uuid, now);
        && (p.Posted? ==> r == Success(TransactionResponseOf(p.entry))
                          && accounts.accounts == p.accounts && transactions.ledger == p.ledger)
        && (p.Rejected? ==> r == Failure(p.error)
                            && accounts.accounts == old(accounts.accounts) && transactions.ledger == old(transactions.ledger))
      ensures old(accounts.Valid()) ==> accounts.Valid()
      ensures old(transactions.Valid()) ==> transactions.Valid()
    {
      var resolved := ResolveOwnedAccount(accounts.accounts, accountNumber, userId);
      if resolved.Failure? {
        return Failure(resolved.error);
      }
      var parsed := ParseTransactionType(request.transactionType);
      if parsed.Failure? {
        return Failure(parsed.error);
      }
      var entry := NewEntry(resolved.value, request, parsed.value, uuid, now);
      var account := new BankAccount.Load(resolved.value);
      var applied := UpdateAccountBalance(account, parsed.value, request.amount);
      if applied.Fail? {
        return Failure(applied.error);
      }
      assert account.Record() == resolved.value.(balance := account.balance);
      // Both writes belong to one database transaction: when either would be refused, neither is made.
      var appended := TR.Appended(transactions.ledger, entry);
      var saved := AR.Saved(accounts.accounts, account.Record(), now);
      if appended.Failure? {
        return Failure(appended.error);
      }
      if saved.Failure? {
        return Failure(saved.error);
      }
      var _ := transactions.Save(entry);
      var _ := accounts.Save(account.Record(), now);
      r := Success(TransactionResponseOf(entry));
    }
  }
}
