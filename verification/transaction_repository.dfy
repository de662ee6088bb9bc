/**
 * TransactionRepository: the ledger store, the sequence of saved transactions in insertion order. The declared
 * queries are functions of the sequence; the inherited `save` is the method of `Store`, which appends.
 * The account listing is ordered by creation time, newest first; entries created at the same instant are
 * listed most recently inserted first, so the order is deterministic for a given ledger.
 */
module TransactionRepository {
  import opened Common
  import opened Transactions

  type Ledger = seq<Transaction>

  /** The first entry satisfying `p`, if any. */
  function FirstMatching(l: Ledger, p: Transaction -> bool): (r: Option<Transaction>)
    ensures r.Some? ==> r.value in l && p(r.value)
    ensures r.None? <==> forall i :: 0 <= i < |l| ==> !p(l[i])
  {
    if l == [] then None
    else if p(l[0]) then Some(l[0])
    else FirstMatching(l[1..], p)
  }

  /** `findByTransactionId`. */
  function FindByTransactionId(l: Ledger, transactionId: string): Option<Transaction> {
    FirstMatching(l, (t: Transaction) => t.transactionId == transactionId)
  }

  /** `findByTransactionIdAndAccount_AccountNumber`. */
  function FindByTransactionIdAndAccountNumber(l: Ledger, transactionId: string, accountNumber: string)
    : Option<Transaction>
  {
    FirstMatching(l, (t: Transaction) => t.transactionId == transactionId && t.accountNumber == accountNumber)
  }

  /** `existsByTransactionId`. */
  predicate ExistsByTransactionId(l: Ledger, transactionId: string) {
    exists i :: 0 <= i < |l| && l[i].transactionId == transactionId
  }

  /** The entries of one account, in insertion order. */
  function ForAccount(l: Ledger, accountNumber: string): (r: Ledger)
    ensures |r| <= |l|
  {
    if l == [] then []
    else ForAccount(l[..|l| - 1], accountNumber)
         + (if l[|l| - 1].accountNumber == accountNumber then [l[|l| - 1]] else [])
  }

  /** Places `t` before the first entry created no later than it. */
  function Insert(t: Transaction, s: Ledger): Ledger {
    if s == [] then [t]
    else if s[0].createdAt <= t.createdAt then [t] + s
    else [s[0]] + Insert(t, s[1..])
  }

  /** Orders entries by creation time, newest first; of entries created together, the later one first. */
  function NewestFirst(s: Ledger): Ledger {
    if s == [] then [] else Insert(s[|s| - 1], NewestFirst(s[..|s| - 1]))
  }

  /** `findByAccount_AccountNumberOrderByCreatedAtDesc`. */
  function FindByAccountNewestFirst(l: Ledger, accountNumber: string): Ledger {
    NewestFirst(ForAccount(l, accountNumber))
  }

  predicate NonIncreasingCreatedAt(s: Ledger) {
    forall i, j :: 0 <= i < j < |s| ==> s[i].createdAt >= s[j].createdAt
  }

  predicate Chronological(s: Ledger) {
    forall i, j :: 0 <= i < j < |s| ==> s[i].createdAt <= s[j].createdAt
  }

  /** No two entries share a transaction id (the column is unique). */
  predicate UniqueIds(l: Ledger) {
    forall i, j :: 0 <= i < j < |l| ==> l[i].transactionId != l[j].transactionId
  }

  /** The invariant of the store: unique ids and every row within the table's column constraints. */
  predicate Consistent(l: Ledger) {
    UniqueIds(l) && forall i :: 0 <= i < |l| ==> FitsColumns(l[i])
  }

  /** The ledger after `save(t)`, or the constraint violation the database raises for a row whose columns do
      not fit or whose transaction id is already taken. */
  function Appended(l: Ledger, t: Transaction): (r: Result<Ledger>)
    ensures r.Success? ==> r.value == l + [t]
    ensures r.Failure? <==> !FitsColumns(t) || ExistsByTransactionId(l, t.transactionId)
    ensures r.Failure? ==> r.error == ConstraintViolation
    ensures Consistent(l) && r.Success? ==> Consistent(r.value)
  {
    if FitsColumns(t) && !ExistsByTransactionId(l, t.transactionId) then Success(l + [t])
    else Failure(ConstraintViolation)
  }

  // ----- properties of the queries -----

  /** `existsByTransactionId` is true exactly when an entry with that id was saved. */
  lemma ExistsIffFound(l: Ledger, transactionId: string)
    ensures ExistsByTransactionId(l, transactionId) <==> FindByTransactionId(l, transactionId).Some?
  {
  }

  /** With unique ids, looking a saved entry up by its id returns that entry, with all its fields. */
  lemma FindSavedById(l: Ledger, i: nat)
    requires UniqueIds(l) && i < |l|
    ensures FindByTransactionId(l, l[i].transactionId) == Some(l[i])
  {
    var r := FindByTransactionId(l, l[i].transactionId);
    assert r.Some?;
    var j :| 0 <= j < |l| && l[j] == r.value;
    assert l[j].transactionId == l[i].transactionId;
  }

  /** The lookup by id and account number finds an entry exactly when one has both. */
  lemma FindByIdAndAccountExactly(l: Ledger, transactionId: string, accountNumber: string)
    ensures var r := FindByTransactionIdAndAccountNumber(l, transactionId, accountNumber);
      && (r.Some? ==> r.value in l && r.value.transactionId == transactionId && r.value.accountNumber == accountNumber)
      && (r.None? <==> forall t :: t in l ==> !(t.transactionId == transactionId && t.accountNumber == accountNumber))
  {
    var p := (t: Transaction) => t.transactionId == transactionId && t.accountNumber == accountNumber;
    var r := FirstMatching(l, p);
    if r.None? {
      forall t | t in l ensures !p(t) {
        var i :| 0 <= i < |l| && l[i] == t;
      }
    }
  }

  /** An id saved under one account is not found under another. */
  lemma NotFoundUnderOtherAccount(l: Ledger, i: nat, accountNumber: string)
    requires UniqueIds(l) && i < |l| && l[i].accountNumber != accountNumber
    ensures FindByTransactionIdAndAccountNumber(l, l[i].transactionId, accountNumber).None?
  {
    var id := l[i].transactionId;
    forall j | 0 <= j < |l| && l[j].transactionId == id ensures j == i {
    }
  }

  /** The entries of an account are exactly the ledger's entries with that account number. */
  lemma {:induction false} ForAccountExactly(l: Ledger, accountNumber: string)
    ensures forall t :: t in ForAccount(l, accountNumber) <==> t in l && t.accountNumber == accountNumber
    ensures forall t :: multiset(ForAccount(l, accountNumber))[t]
                     == (if t.accountNumber == accountNumber then multiset(l)[t] else 0)
  {
    if l != [] {
      var init := l[..|l| - 1];
      ForAccountExactly(init, accountNumber);
      assert l == init + [l[|l| - 1]];
      assert multiset(l) == multiset(init) + multiset{l[|l| - 1]};
    }
  }

  /** The signed amount of an entry: a deposit adds to the balance, a withdrawal takes away. */
  function Signed(t: Transaction): int {
    if t.transactionType == Deposit then t.amount else -t.amount
  }

  /** The net effect of a run of entries on a balance. */
  function Total(s: Ledger): int {
    if s == [] then 0 else Total(s[..|s| - 1]) + Signed(s[|s| - 1])
  }

  /** One more entry moves the net effect by its signed amount. */
  lemma TotalAppend(s: Ledger, t: Transaction)
    ensures Total(s + [t]) == Total(s) + Signed(t)
  {
    assert (s + [t])[..|s + [t]| - 1] == s;
  }

  /** Appending an entry adds it to its own account's entries and to no other account's. */
  lemma ForAccountAppend(l: Ledger, t: Transaction, accountNumber: string)
    ensures ForAccount(l + [t], accountNumber)
         == ForAccount(l, accountNumber) + (if t.accountNumber == accountNumber then [t] else [])
  {
    assert (l + [t])[..|l + [t]| - 1] == l;
  }

  /** Appending an entry moves its own account's net by its signed amount and no other account's. */
  lemma NetAppend(l: Ledger, t: Transaction, accountNumber: string)
    ensures Total(ForAccount(l + [t], accountNumber))
         == Total(ForAccount(l, accountNumber)) + (if t.accountNumber == accountNumber then Signed(t) else 0)
  {
    ForAccountAppend(l, t, accountNumber);
    if t.accountNumber == accountNumber {
      TotalAppend(ForAccount(l, accountNumber), t);
    } else {
      assert ForAccount(l, accountNumber) + [] == ForAccount(l, accountNumber);
    }
  }

  /** Inserting keeps every entry no newer than a bound that the inserted entry also respects. */
  lemma {:induction false} InsertBounded(t: Transaction, s: Ledger, bound: nat)
    requires t.createdAt <= bound
    requires forall k :: 0 <= k < |s| ==> s[k].createdAt <= bound
    ensures forall k :: 0 <= k < |Insert(t, s)| ==> Insert(t, s)[k].createdAt <= bound
  {
    if s != [] && s[0].createdAt > t.createdAt {
      InsertBounded(t, s[1..], bound);
    }
  }

  /** Inserting adds exactly the inserted entry. */
  lemma {:induction false} InsertPermutes(t: Transaction, s: Ledger)
    ensures multiset(Insert(t, s)) == multiset(s) + multiset{t}
  {
    if s != [] && s[0].createdAt > t.createdAt {
      InsertPermutes(t, s[1..]);
      assert s == [s[0]] + s[1..];
    }
  }

  /** An entry no older than every entry of a newest-first list can be put in front of it. */
  lemma ConsSorted(x: Transaction, r: Ledger)
    requires NonIncreasingCreatedAt(r)
    requires forall k :: 0 <= k < |r| ==> r[k].createdAt <= x.createdAt
    ensures NonIncreasingCreatedAt([x] + r)
  {
    var c := [x] + r;
    forall i, j | 0 <= i < j < |c| ensures c[i].createdAt >= c[j].createdAt {
      assert c[j] == r[j - 1];
      if i > 0 {
        assert c[i] == r[i - 1];
      }
    }
  }

  lemma {:induction false} InsertSorted(t: Transaction, s: Ledger)
    requires NonIncreasingCreatedAt(s)
    ensures NonIncreasingCreatedAt(Insert(t, s))
    ensures multiset(Insert(t, s)) == multiset(s) + multiset{t}
  {
    InsertPermutes(t, s);
    if s != [] && s[0].createdAt > t.createdAt {
      var tail := s[1..];
      InsertSorted(t, tail);
      InsertBounded(t, tail, s[0].createdAt);
      ConsSorted(s[0], Insert(t, tail));
    } else if s != [] {
      ConsSorted(t, s);
    }
  }

  /** The listing order is non-increasing in creation time and holds exactly the given entries. */
  lemma {:induction false} NewestFirstSortedPermutation(s: Ledger)
    ensures NonIncreasingCreatedAt(NewestFirst(s))
    ensures multiset(NewestFirst(s)) == multiset(s)
  {
    if s != [] {
      var init := s[..|s| - 1];
      NewestFirstSortedPermutation(init);
      InsertSorted(s[|s| - 1], NewestFirst(init));
      assert s == init + [s[|s| - 1]];
    }
  }

  function Reverse(s: Ledger): (r: Ledger)
    ensures |r| == |s|
  {
    if s == [] then [] else [s[|s| - 1]] + Reverse(s[..|s| - 1])
  }

  /** When the clock never runs backwards, newest first is simply reverse insertion order. */
  lemma {:induction false} NewestFirstOfChronological(s: Ledger)
    requires Chronological(s)
    ensures NewestFirst(s) == Reverse(s)
  {
    if s != [] {
      var init := s[..|s| - 1];
      assert Chronological(init);
      NewestFirstOfChronological(init);
      var sorted := NewestFirst(init);
      if sorted != [] {
        NewestFirstSortedPermutation(init);
        assert sorted[0] in multiset(init);
        var m :| 0 <= m < |init| && init[m] == sorted[0];
        assert s[m].createdAt <= s[|s| - 1].createdAt;
      }
    }
  }

  /** The account listing is newest first, holds exactly that account's entries, and is empty for an
      account without entries. */
  lemma FindByAccountNewestFirstExactly(l: Ledger, accountNumber: string)
    ensures NonIncreasingCreatedAt(FindByAccountNewestFirst(l, accountNumber))
    ensures forall t :: t in FindByAccountNewestFirst(l, accountNumber) <==> t in l && t.accountNumber == accountNumber
    ensures (forall t :: t in l ==> t.accountNumber != accountNumber) ==> FindByAccountNewestFirst(l, accountNumber) == []
    ensures forall t :: multiset(FindByAccountNewestFirst(l, accountNumber))[t]
                     == (if t.accountNumber == accountNumber then multiset(l)[t] else 0)
    ensures |FindByAccountNewestFirst(l, accountNumber)| == |ForAccount(l, accountNumber)|
  {
    var f := ForAccount(l, accountNumber);
    NewestFirstSortedPermutation(f);
    ForAccountExactly(l, accountNumber);
    forall t ensures t in NewestFirst(f) <==> t in f {
      assert t in NewestFirst(f) <==> t in multiset(NewestFirst(f));
    }
    if f != [] {
      assert f[0] in f;
    }
    assert |NewestFirst(f)| == |multiset(NewestFirst(f))|;
  }

  /** An entry created no earlier than every entry of its account is listed first, ahead of the previous
      listing. */
  lemma AppendedNewestListedFirst(l: Ledger, t: Transaction)
    requires forall u :: u in l && u.accountNumber == t.accountNumber ==> u.createdAt <= t.createdAt
    ensures FindByAccountNewestFirst(l + [t], t.accountNumber) == [t] + FindByAccountNewestFirst(l, t.accountNumber)
  {
    var f := ForAccount(l, t.accountNumber);
    ForAccountAppend(l, t, t.accountNumber);
    assert (f + [t])[..|f + [t]| - 1] == f;
    var sorted := NewestFirst(f);
    if sorted != [] {
      NewestFirstSortedPermutation(f);
      ForAccountExactly(l, t.accountNumber);
      assert sorted[0] in multiset(f);
    }
  }

  class Store {
    var ledger: Ledger

    ghost predicate Valid()
      reads this
    {
      Consistent(ledger)
    }

    constructor ()
      ensures Valid() && ledger == []
    {
      ledger := [];
    }

    /** `save(transaction)`: appends the entry, or fails on a constraint violation. */
    method Save(t: Transaction) returns (outcome: Outcome)
      modifies this
      ensures outcome == Appended(old(ledger), t).ToOutcome()
      ensures ledger == Appended(old(ledger), t).GetOr(old(ledger))
      ensures old(Valid()) ==> Valid()
    {
      var r := Appended(ledger, t);
      if r.Failure? {
        return Fail(r.error);
      }
      ledger := r.value;
      outcome := Pass;
    }
  }
}
