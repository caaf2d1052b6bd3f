/**
 * The transaction processor (TransactionProcessorCore.cs): applies an ordered
 * list of transactions to a dictionary of accounts, in place, one transaction
 * at a time, and stops at the first failure without undoing anything.
 *
 * `Run` is the specification: it follows the balance of every Account object
 * (a map keyed by the objects themselves), so a transaction from an account to
 * itself, or two account numbers sharing one object, behave exactly as the
 * in-place updates do.
 */
module TransactionProcessor {
  import opened Wrappers
  import opened Numerics
  import opened AccountNumbers
  import opened Accounts
  import opened Transactions

  /** Why processing stopped before the end of the list. */
  datatype ProcessError =
      /** KeyNotFoundException from the dictionary lookup, naming the missing key. */
    | KeyNotFound(key: AccountNumber)
      /** An exception from `ApplyToBalance`. */
    | BalanceFailed(error: BalanceError)

  datatype Status = Completed | Failed(error: ProcessError)

  /** The balance of every account object, and how processing ended. */
  datatype Outcome = Outcome(balances: map<Account, Decimal>, status: Status)

  /** Every account the dictionary holds has a balance. */
  predicate Covers(accounts: map<AccountNumber, Account>, balances: map<Account, Decimal>) {
    forall k | k in accounts :: accounts[k] in balances
  }

  predicate NonNegative(balances: map<Account, Decimal>) {
    forall a | a in balances :: balances[a] >= 0.0
  }

  /** The current balance of every account object in the dictionary. */
  ghost function BalancesOf(accounts: map<AccountNumber, Account>): (b: map<Account, Decimal>)
    reads accounts.Values
    ensures Covers(accounts, b)
  {
    map a | a in accounts.Values :: a.Balance
  }

  /**
   * One transaction: both lookups first, then the debit of the sender, then the
   * credit of the receiver. A failed debit changes nothing; a failed credit
   * leaves the debit in place.
   */
  function Step(accounts: map<AccountNumber, Account>, balances: map<Account, Decimal>, t: Transaction): (r: Outcome)
    requires Covers(accounts, balances)
    ensures r.balances.Keys == balances.Keys
    ensures t.fromAccount !in accounts ==> r == Outcome(balances, Failed(KeyNotFound(t.fromAccount)))
    ensures t.fromAccount in accounts && t.toAccount !in accounts ==> r == Outcome(balances, Failed(KeyNotFound(t.toAccount)))
  {
    if t.fromAccount !in accounts then Outcome(balances, Failed(KeyNotFound(t.fromAccount)))
    else if t.toAccount !in accounts then Outcome(balances, Failed(KeyNotFound(t.toAccount)))
    else
      var from, to := accounts[t.fromAccount], accounts[t.toAccount];
      match ApplyAmount(from.Number, balances[from], -t.amount)
      case Failure(e) => Outcome(balances, Failed(BalanceFailed(e)))
      case Success(debited) =>
        var afterDebit := balances[from := debited];
        match ApplyAmount(to.Number, afterDebit[to], t.amount)
        case Failure(e) => Outcome(afterDebit, Failed(BalanceFailed(e)))
        case Success(credited) => Outcome(afterDebit[to := credited], Completed)
  }

  /** The transactions in list order, stopping at the first one that fails. */
  function Run(accounts: map<AccountNumber, Account>, balances: map<Account, Decimal>, transactions: seq<Transaction>): (r: Outcome)
    requires Covers(accounts, balances)
    ensures r.balances.Keys == balances.Keys
    decreases |transactions|
  {
    if transactions == [] then Outcome(balances, Completed)
    else
      var s := Step(accounts, balances, transactions[0]);
      if s.status.Completed? then Run(accounts, s.balances, transactions[1..]) else s
  }

  /** The body of the loop: one transaction applied to the accounts in place, as `Step` says. */
  method ApplyTransaction(accounts: map<AccountNumber, Account>, t: Transaction) returns (status: Status)
    requires forall k | k in accounts :: accounts[k].Valid()
    modifies accounts.Values
    ensures forall k | k in accounts :: accounts[k].Valid()
    ensures Step(accounts, old(BalancesOf(accounts)), t) == Outcome(BalancesOf(accounts), status)
  {
    ghost var before := BalancesOf(accounts);
    if t.fromAccount !in accounts {
      return Failed(KeyNotFound(t.fromAccount));
    }
    if t.toAccount !in accounts {
      return Failed(KeyNotFound(t.toAccount));
    }
    var from := accounts[t.fromAccount];
    var to := accounts[t.toAccount];
    var debit := from.ApplyToBalance(-t.amount);
    if debit.Failure? {
      assert BalancesOf(accounts) == before;
      return Failed(BalanceFailed(debit.error));
    }
    ghost var afterDebit := BalancesOf(accounts);
    assert afterDebit == before[from := debit.value];
    var credit := to.ApplyToBalance(t.amount);
    if credit.Failure? {
      assert BalancesOf(accounts) == afterDebit;
      return Failed(BalanceFailed(credit.error));
    }
    assert BalancesOf(accounts) == afterDebit[to := credit.value];
    return Completed;
  }

  /**
   * `ApplyTransactionsToAccounts`: mutates the accounts in the dictionary so that
   * their balances are those `Run` gives, and reports how processing ended.
   */
  method ApplyTransactionsToAccounts(accounts: map<AccountNumber, Account>, transactions: seq<Transaction>) returns (status: Status)
    requires forall k | k in accounts :: accounts[k].Valid()
    modifies accounts.Values
    ensures forall k | k in accounts :: accounts[k].Valid()
    ensures Run(accounts, old(BalancesOf(accounts)), transactions) == Outcome(BalancesOf(accounts), status)
  {
    ghost var initial := BalancesOf(accounts);
    for i := 0 to |transactions|
      invariant forall k | k in accounts :: accounts[k].Valid()
      invariant Run(accounts, initial, transactions) == Run(accounts, BalancesOf(accounts), transactions[i..])
    {
      assert transactions[i..][0] == transactions[i] && transactions[i..][1..] == transactions[i + 1..];
      status := ApplyTransaction(accounts, transactions[i]);
      if status.Failed? {
        return;
      }
    }
    assert transactions[|transactions|..] == [];
    return Completed;
  }

  // ----- Properties of the specification -----

  /** No balance ever goes negative: not at the end, and (taking a prefix of the list) not after any step. */
  lemma {:induction false} RunKeepsBalancesNonNegative(accounts: map<AccountNumber, Account>, balances: map<Account, Decimal>, transactions: seq<Transaction>)
    requires Covers(accounts, balances) && NonNegative(balances)
    ensures NonNegative(Run(accounts, balances, transactions).balances)
    decreases |transactions|
  {
    if transactions != [] {
      var s := Step(accounts, balances, transactions[0]);
      if s.status.Completed? {
        RunKeepsBalancesNonNegative(accounts, s.balances, transactions[1..]);
      }
    }
  }

  /** Fail-fast, in order: a list split in two runs as its first part, then, only if that completed, its second part. */
  lemma {:induction false} RunAppend(accounts: map<AccountNumber, Account>, balances: map<Account, Decimal>, first: seq<Transaction>, second: seq<Transaction>)
    requires Covers(accounts, balances)
    ensures Run(accounts, balances, first + second) ==
      var r := Run(accounts, balances, first);
      if r.status.Completed? then Run(accounts, r.balances, second) else r
    decreases |first|
  {
    if first != [] {
      assert (first + second)[0] == first[0] && (first + second)[1..] == first[1..] + second;
      var s := Step(accounts, balances, first[0]);
      if s.status.Completed? {
        RunAppend(accounts, s.balances, first[1..], second);
      }
    } else {
      assert first + second == second;
    }
  }

  /** Only the sender's debit can fail for lack of funds, and when it does no balance has changed. */
  lemma InsufficientDebitChangesNothing(accounts: map<AccountNumber, Account>, balances: map<Account, Decimal>, t: Transaction)
    requires Covers(accounts, balances) && NonNegative(balances) && t.Valid()
    ensures var r := Step(accounts, balances, t);
      r.status.Failed? && r.status.error.BalanceFailed? && r.status.error.error.InsufficientBalance? ==>
        r.balances == balances &&
        t.fromAccount in accounts &&
        r.status.error.error == InsufficientBalance(accounts[t.fromAccount].Number, t.amount, balances[accounts[t.fromAccount]])
  {
  }

  /**
   * No rollback inside a transfer: only the receiver's credit can overflow, and
   * when it does the sender's debit stays applied. Sender and receiver are then
   * two different objects, since a credit back onto the debited account cannot
   * exceed the balance it started from.
   */
  lemma OverflowKeepsDebit(accounts: map<AccountNumber, Account>, balances: map<Account, Decimal>, t: Transaction)
    requires Covers(accounts, balances) && t.Valid()
    ensures var r := Step(accounts, balances, t);
      r.status == Failed(BalanceFailed(Overflow)) ==>
        && t.fromAccount in accounts && t.toAccount in accounts
        && accounts[t.fromAccount] != accounts[t.toAccount]
        && r.balances == balances[accounts[t.fromAccount] := balances[accounts[t.fromAccount]] - t.amount]
  {
  }

  /**
   * A transfer whose two keys name one Account object (the same key twice, or
   * two keys sharing an object) debits and then credits that object: it changes
   * nothing when the balance covers the amount, and otherwise fails for lack of
   * funds.
   */
  lemma SelfTransferChangesNothing(accounts: map<AccountNumber, Account>, balances: map<Account, Decimal>, t: Transaction)
    requires Covers(accounts, balances) && t.Valid()
    requires t.fromAccount in accounts && t.toAccount in accounts
    requires accounts[t.fromAccount] == accounts[t.toAccount]
    ensures var a := accounts[t.fromAccount];
      Step(accounts, balances, t) ==
        if t.amount == 0.0 || balances[a] >= t.amount then Outcome(balances, Completed)
        else Outcome(balances, Failed(BalanceFailed(InsufficientBalance(a.Number, t.amount, balances[a]))))
  {
    var a := accounts[t.fromAccount];
    if t.amount == 0.0 || balances[a] >= t.amount {
      assert balances[a := balances[a] - t.amount][a := balances[a]] == balances;
    }
  }

  /**
   * A transfer between two distinct accounts that the sender can cover and the
   * receiver can hold subtracts the amount from the one and adds it to the other.
   */
  lemma TransferCompletes(accounts: map<AccountNumber, Account>, balances: map<Account, Decimal>, t: Transaction)
    requires Covers(accounts, balances) && t.Valid()
    requires t.fromAccount in accounts && t.toAccount in accounts
    requires accounts[t.fromAccount] != accounts[t.toAccount]
    requires balances[accounts[t.fromAccount]] >= t.amount
    requires balances[accounts[t.toAccount]] + t.amount <= MAX_DEC
    ensures
      var from, to := accounts[t.fromAccount], accounts[t.toAccount];
      Step(accounts, balances, t) ==
        Outcome(balances[from := balances[from] - t.amount][to := balances[to] + t.amount], Completed)
  {
  }

  /** Account objects that no transaction names keep their balances. */
  predicate Names(accounts: map<AccountNumber, Account>, t: Transaction, a: Account) {
    (t.fromAccount in accounts && accounts[t.fromAccount] == a) || (t.toAccount in accounts && accounts[t.toAccount] == a)
  }

  lemma {:induction false} RunLeavesOtherAccounts(accounts: map<AccountNumber, Account>, balances: map<Account, Decimal>, transactions: seq<Transaction>, a: Account)
    requires Covers(accounts, balances) && a in balances
    requires forall i | 0 <= i < |transactions| :: !Names(accounts, transactions[i], a)
    ensures Run(accounts, balances, transactions).balances[a] == balances[a]
    decreases |transactions|
  {
    if transactions != [] {
      var s := Step(accounts, balances, transactions[0]);
      assert !Names(accounts, transactions[0], a);
      if s.status.Completed? {
        RunLeavesOtherAccounts(accounts, s.balances, transactions[1..], a);
      }
    }
  }

  /** When every transaction names accounts the dictionary holds, processing never fails on a missing key. */
  lemma {:induction false} KnownAccountsNeverMissing(accounts: map<AccountNumber, Account>, balances: map<Account, Decimal>, transactions: seq<Transaction>)
    requires Covers(accounts, balances)
    requires forall i | 0 <= i < |transactions| :: transactions[i].fromAccount in accounts && transactions[i].toAccount in accounts
    ensures !Run(accounts, balances, transactions).status.Failed? || !Run(accounts, balances, transactions).status.error.KeyNotFound?
    decreases |transactions|
  {
    if transactions != [] {
      var s := Step(accounts, balances, transactions[0]);
      if s.status.Completed? {
        KnownAccountsNeverMissing(accounts, s.balances, transactions[1..]);
      }
    }
  }

  // ----- Conservation of the total balance -----

  /** The sum of a map's values. */
  ghost function Total<K>(m: map<K, real>): real
    decreases |m|
  {
    if m == map[] then 0.0
    else
      var k :| k in m;
      m[k] + Total(m - {k})
  }

  lemma {:induction false} TotalRemove<K>(m: map<K, real>, k: K)
    requires k in m
    ensures Total(m) == m[k] + Total(m - {k})
    decreases |m|
  {
    var j :| j in m && Total(m) == m[j] + Total(m - {j});
    if j != k {
      assert (m - {j}) - {k} == (m - {k}) - {j};
      TotalRemove(m - {j}, k);
      TotalRemove(m - {k}, j);
    }
  }

  lemma TotalUpdate<K>(m: map<K, real>, k: K, v: real)
    requires k in m
    ensures Total(m[k := v]) == Total(m) - m[k] + v
  {
    TotalRemove(m, k);
    TotalRemove(m[k := v], k);
    assert m[k := v] - {k} == m - {k};
  }

  /** A completed transaction moves money between accounts and neither creates nor destroys any. */
  lemma StepConservesTotal(accounts: map<AccountNumber, Account>, balances: map<Account, Decimal>, t: Transaction)
    requires Covers(accounts, balances)
    requires Step(accounts, balances, t).status.Completed?
    ensures Total(Step(accounts, balances, t).balances) == Total(balances)
  {
    var from, to := accounts[t.fromAccount], accounts[t.toAccount];
    var debited := balances[from] - t.amount;
    var afterDebit := balances[from := debited];
    TotalUpdate(balances, from, debited);
    TotalUpdate(afterDebit, to, afterDebit[to] + t.amount);
  }

  /** A batch that completes conserves the sum of all balances. */
  lemma {:induction false} RunConservesTotal(accounts: map<AccountNumber, Account>, balances: map<Account, Decimal>, transactions: seq<Transaction>)
    requires Covers(accounts, balances)
    requires Run(accounts, balances, transactions).status.Completed?
    ensures Total(Run(accounts, balances, transactions).balances) == Total(balances)
    decreases |transactions|
  {
    if transactions != [] {
      var s := Step(accounts, balances, transactions[0]);
      StepConservesTotal(accounts, balances, transactions[0]);
      RunConservesTotal(accounts, s.balances, transactions[1..]);
    }
  }

  /** A list whose first transaction completes runs on as its rest does, from the balances that transaction left. */
  lemma RunPastCompletedStep(accounts: map<AccountNumber, Account>, balances: map<Account, Decimal>, after: map<Account, Decimal>,
                             t: Transaction, rest: seq<Transaction>)
    requires Covers(accounts, balances) && Step(accounts, balances, t) == Outcome(after, Completed)
    ensures Covers(accounts, after) && Run(accounts, balances, [t] + rest) == Run(accounts, after, rest)
  {
    assert ([t] + rest)[0] == t && ([t] + rest)[1..] == rest;
  }

  // ----- The service's own examples -----

  function Num(v: NonNegLong): AccountNumber {
    AccountNumber(v)
  }

  /** The dictionary of the four-account example. */
  function Four(a1: Account, a2: Account, a3: Account, a4: Account): map<AccountNumber, Account> {
    map[Num(1) := a1, Num(2) := a2, Num(3) := a3, Num(4) := a4]
  }

  /** The balances of the four-account example, in account order. */
  function FourBalances(a1: Account, a2: Account, a3: Account, a4: Account, x1: Decimal, x2: Decimal, x3: Decimal, x4: Decimal): map<Account, Decimal> {
    map[a1 := x1, a2 := x2, a3 := x3, a4 := x4]
  }

  /** The first transfer of the four-account batch: 1 pays 50 to 2. */
  lemma FirstTransfer(a1: Account, a2: Account, a3: Account, a4: Account)
    requires a1 != a2 && a1 != a3 && a1 != a4 && a2 != a3 && a2 != a4 && a3 != a4
    ensures Step(Four(a1, a2, a3, a4), FourBalances(a1, a2, a3, a4, 100.0, 200.0, 0.0, 1000.0), Transaction(Num(1), Num(2), 50.0))
      == Outcome(FourBalances(a1, a2, a3, a4, 50.0, 250.0, 0.0, 1000.0), Completed)
  {
    TransferCompletes(Four(a1, a2, a3, a4), FourBalances(a1, a2, a3, a4, 100.0, 200.0, 0.0, 1000.0), Transaction(Num(1), Num(2), 50.0));
  }

  /** Four transfers that all go through: {1:100, 2:200, 3:0, 4:1000} becomes {1:50, 2:650, 3:300, 4:300}. */
  lemma ExampleBatchCompletes(a1: Account, a2: Account, a3: Account, a4: Account)
    requires a1 != a2 && a1 != a3 && a1 != a4 && a2 != a3 && a2 != a4 && a3 != a4
    ensures Run(Four(a1, a2, a3, a4), FourBalances(a1, a2, a3, a4, 100.0, 200.0, 0.0, 1000.0),
                [Transaction(Num(1), Num(2), 50.0), Transaction(Num(2), Num(3), 250.0), Transaction(Num(4), Num(3), 700.0), Transaction(Num(3), Num(2), 650.0)])
      == Outcome(FourBalances(a1, a2, a3, a4, 50.0, 650.0, 300.0, 300.0), Completed)
  {
    var t1 := Transaction(Num(1), Num(2), 50.0);
    var t2 := Transaction(Num(2), Num(3), 250.0);
    var t3 := Transaction(Num(4), Num(3), 700.0);
    var t4 := Transaction(Num(3), Num(2), 650.0);
    FirstTransfer(a1, a2, a3, a4);
    BatchFromSecond(a1, a2, a3, a4);
    RunPastCompletedStep(Four(a1, a2, a3, a4), FourBalances(a1, a2, a3, a4, 100.0, 200.0, 0.0, 1000.0), FourBalances(a1, a2, a3, a4, 50.0, 250.0, 0.0, 1000.0), t1, [t2, t3, t4]);
    assert [t1] + [t2, t3, t4] == [t1, t2, t3, t4];
  }

  /** The last three transfers of that batch complete. The second: 2 pays 250 to 3, its whole balance after the first. */
  lemma BatchFromSecond(a1: Account, a2: Account, a3: Account, a4: Account)
    requires a1 != a2 && a1 != a3 && a1 != a4 && a2 != a3 && a2 != a4 && a3 != a4
    ensures Run(Four(a1, a2, a3, a4), FourBalances(a1, a2, a3, a4, 50.0, 250.0, 0.0, 1000.0),
                [Transaction(Num(2), Num(3), 250.0), Transaction(Num(4), Num(3), 700.0), Transaction(Num(3), Num(2), 650.0)])
      == Outcome(FourBalances(a1, a2, a3, a4, 50.0, 650.0, 300.0, 300.0), Completed)
  {
    var t2 := Transaction(Num(2), Num(3), 250.0);
    var t3 := Transaction(Num(4), Num(3), 700.0);
    var t4 := Transaction(Num(3), Num(2), 650.0);
    TransferCompletes(Four(a1, a2, a3, a4), FourBalances(a1, a2, a3, a4, 50.0, 250.0, 0.0, 1000.0), t2);
    BatchFromThird(a1, a2, a3, a4);
    RunPastCompletedStep(Four(a1, a2, a3, a4), FourBalances(a1, a2, a3, a4, 50.0, 250.0, 0.0, 1000.0), FourBalances(a1, a2, a3, a4, 50.0, 0.0, 250.0, 1000.0), t2, [t3, t4]);
    assert [t2] + [t3, t4] == [t2, t3, t4];
  }

  /** The last two complete. The third: 4 pays 700 to 3. */
  lemma BatchFromThird(a1: Account, a2: Account, a3: Account, a4: Account)
    requires a1 != a2 && a1 != a3 && a1 != a4 && a2 != a3 && a2 != a4 && a3 != a4
    ensures Run(Four(a1, a2, a3, a4), FourBalances(a1, a2, a3, a4, 50.0, 0.0, 250.0, 1000.0),
                [Transaction(Num(4), Num(3), 700.0), Transaction(Num(3), Num(2), 650.0)])
      == Outcome(FourBalances(a1, a2, a3, a4, 50.0, 650.0, 300.0, 300.0), Completed)
  {
    var t3 := Transaction(Num(4), Num(3), 700.0);
    var t4 := Transaction(Num(3), Num(2), 650.0);
    TransferCompletes(Four(a1, a2, a3, a4), FourBalances(a1, a2, a3, a4, 50.0, 0.0, 250.0, 1000.0), t3);
    BatchFromFourth(a1, a2, a3, a4);
    RunPastCompletedStep(Four(a1, a2, a3, a4), FourBalances(a1, a2, a3, a4, 50.0, 0.0, 250.0, 1000.0), FourBalances(a1, a2, a3, a4, 50.0, 0.0, 950.0, 300.0), t3, [t4]);
    assert [t3] + [t4] == [t3, t4];
  }

  /** The last one completes. The fourth: 3 pays 650 to 2. */
  lemma BatchFromFourth(a1: Account, a2: Account, a3: Account, a4: Account)
    requires a1 != a2 && a1 != a3 && a1 != a4 && a2 != a3 && a2 != a4 && a3 != a4
    ensures Run(Four(a1, a2, a3, a4), FourBalances(a1, a2, a3, a4, 50.0, 0.0, 950.0, 300.0),
                [Transaction(Num(3), Num(2), 650.0)])
      == Outcome(FourBalances(a1, a2, a3, a4, 50.0, 650.0, 300.0, 300.0), Completed)
  {
    var t4 := Transaction(Num(3), Num(2), 650.0);
    TransferCompletes(Four(a1, a2, a3, a4), FourBalances(a1, a2, a3, a4, 50.0, 0.0, 950.0, 300.0), t4);
    RunPastCompletedStep(Four(a1, a2, a3, a4), FourBalances(a1, a2, a3, a4, 50.0, 0.0, 950.0, 300.0), FourBalances(a1, a2, a3, a4, 50.0, 650.0, 300.0, 300.0), t4, []);
    assert [t4] + [] == [t4];
  }

  /**
   * Order matters: with {1:100, 2:200}, the transfers 2->1 of 30, 1->2 of 150 and
   * 2->1 of 150 would end non-negative if netted, but the second one finds account 1
   * at 130 and stops the batch, leaving the first one applied.
   */
  lemma ExampleBatchStopsOnOverdraft(a1: Account, a2: Account)
    requires a1 != a2 && a1.Number == Num(1)
    ensures
      var accounts := map[Num(1) := a1, Num(2) := a2];
      var batch := [Transaction(Num(2), Num(1), 30.0), Transaction(Num(1), Num(2), 150.0), Transaction(Num(2), Num(1), 150.0)];
      Run(accounts, map[a1 := 100.0, a2 := 200.0], batch) ==
        Outcome(map[a1 := 130.0, a2 := 170.0], Failed(BalanceFailed(InsufficientBalance(Num(1), 150.0, 130.0))))
  {
    var accounts := map[Num(1) := a1, Num(2) := a2];
    var t1, t2, t3 := Transaction(Num(2), Num(1), 30.0), Transaction(Num(1), Num(2), 150.0), Transaction(Num(2), Num(1), 150.0);
    var b0 := map[a1 := 100.0, a2 := 200.0];
    var b1 := map[a1 := 130.0, a2 := 170.0];
    var failure := Failed(BalanceFailed(InsufficientBalance(Num(1), 150.0, 130.0)));
    assert Step(accounts, b0, t1) == Outcome(b1, Completed);
    assert Step(accounts, b1, t2) == Outcome(b1, failure);
    var batch := [t1, t2, t3];
    assert batch[1..] == [t2, t3];
    assert Run(accounts, b1, [t2, t3]) == Outcome(b1, failure);
  }

  /** A transfer to an account the dictionary lacks fails on that key and changes nothing. */
  lemma ExampleUnknownAccount(a1: Account)
    ensures Run(map[Num(1) := a1], map[a1 := 100.0], [Transaction(Num(1), Num(2), 50.0)]) ==
      Outcome(map[a1 := 100.0], Failed(KeyNotFound(Num(2))))
  {
    var t := Transaction(Num(1), Num(2), 50.0);
    assert Step(map[Num(1) := a1], map[a1 := 100.0], t) == Outcome(map[a1 := 100.0], Failed(KeyNotFound(Num(2))));
  }
}
