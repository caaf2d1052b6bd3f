/**
 * The processTransactions subcommand (ProcessTransactions.cs) without its file
 * and console I/O: parse the account balances, parse the transactions against
 * the set of parsed account numbers, then apply the transactions to the parsed
 * accounts in order.
 */
module ProcessTransactions {
  import opened Wrappers
  import opened Numerics
  import opened AccountNumbers
  import opened Accounts
  import opened Transactions
  import opened RecordTypes
  import opened TransactionProcessor
  import AccountsParser
  import TransactionsParser

  /** Why a run stops: the exception that escapes `RunAsync`, by the stage that raised it. */
  datatype RunError =
    | InvalidAccountsData(data: DataError)
    | InvalidTransactionsData(data: DataError)
    | ProcessingFailed(error: ProcessError)

  /** The balance each parsed account object started with, read off the parsed balances by its number. */
  ghost function StartingBalances(accounts: map<AccountNumber, Account>, parsed: map<AccountNumber, Decimal>): (b: map<Account, Decimal>)
    ensures forall k | k in accounts && k in parsed && accounts[k].Number == k :: accounts[k] in b && b[accounts[k]] == parsed[k]
  {
    map a | a in accounts.Values && a.Number in parsed :: parsed[a.Number]
  }

  /**
   * Transactions the parser accepted against the key set of an accounts
   * dictionary never reach the processor's missing-key failure: every lookup
   * `accounts[t.FromAccount]` and `accounts[t.ToAccount]` finds its account.
   */
  lemma ParsedTransactionsNeverMissAccounts(accounts: map<AccountNumber, Account>, balances: map<Account, Decimal>,
                                            records: seq<TransactionRecord>)
    requires Covers(accounts, balances)
    requires TransactionsParser.ParseTransactions(accounts.Keys, records).Success?
    ensures var r := Run(accounts, balances, TransactionsParser.ParseTransactions(accounts.Keys, records).value);
      r.status.Failed? ==> r.status.error.BalanceFailed?
  {
    var transactions := TransactionsParser.ParseTransactions(accounts.Keys, records).value;
    assert forall i | 0 <= i < |transactions| :: TransactionsParser.Acceptable(accounts.Keys, transactions[i]);
    KnownAccountsNeverMissing(accounts, balances, transactions);
  }

  /**
   * `RunAsync` up to the output file: the first failing stage decides the
   * error. Once both files parse, `accounts` is the dictionary the accounts
   * parser allocated, and the run ends as `Run` from the parsed balances says:
   * it succeeds exactly when `Run` completes, fails with `Run`'s error
   * otherwise, and leaves the accounts holding `Run`'s balances either way. A
   * missing account is never among the errors.
   */
  method Process(accountRecords: seq<AccountBalanceRecord>, transactionRecords: seq<TransactionRecord>)
    returns (r: Result<map<AccountNumber, Account>, RunError>, ghost accounts: map<AccountNumber, Account>)
    ensures AccountsParser.ParseAccounts(accountRecords).Failure? ==>
      r == Failure(InvalidAccountsData(AccountsParser.ParseAccounts(accountRecords).error))
    ensures AccountsParser.ParseAccounts(accountRecords).Success? ==>
      var parsed := AccountsParser.ParseAccounts(accountRecords).value;
      var transactions := TransactionsParser.ParseTransactions(parsed.Keys, transactionRecords);
      && accounts.Keys == parsed.Keys
      && (forall k | k in accounts :: accounts[k].Number == k && accounts[k].Valid())
      && (transactions.Failure? ==> r == Failure(InvalidTransactionsData(transactions.error)))
      && (transactions.Success? ==>
            var outcome := Run(accounts, StartingBalances(accounts, parsed), transactions.value);
            && (r.Success? <==> outcome.status.Completed?)
            && (r.Success? ==> r.value == accounts)
            && (r.Failure? ==> r == Failure(ProcessingFailed(outcome.status.error)))
            && outcome.balances == BalancesOf(accounts))
      && (r.Failure? && r.error.ProcessingFailed? ==> r.error.error.BalanceFailed?)
  {
    accounts := map[];
    var parsedAccounts := AccountsParser.ParseFromRecords(accountRecords);
    if parsedAccounts.Failure? {
      return Failure(InvalidAccountsData(parsedAccounts.error)), accounts;
    }
    accounts := parsedAccounts.value;
    ghost var parsed := AccountsParser.ParseAccounts(accountRecords).value;
    var accountNumbers := parsedAccounts.value.Keys;
    var parsedTransactions := TransactionsParser.ParseFromRecords(accountNumbers, transactionRecords);
    if parsedTransactions.Failure? {
      return Failure(InvalidTransactionsData(parsedTransactions.error)), accounts;
    }
    var transactions := parsedTransactions.value;
    StartingBalancesAreCurrent(accounts, parsed);
    ParsedTransactionsNeverMissAccounts(accounts, BalancesOf(accounts), transactionRecords);
    var status := ApplyTransactionsToAccounts(parsedAccounts.value, transactions);
    if status.Failed? {
      return Failure(ProcessingFailed(status.error)), accounts;
    }
    return Success(parsedAccounts.value), accounts;
  }

  /** Right after parsing, every account's balance is the one parsed for its number. */
  lemma StartingBalancesAreCurrent(accounts: map<AccountNumber, Account>, parsed: map<AccountNumber, Decimal>)
    requires AccountsParser.Represents(accounts, parsed)
    ensures BalancesOf(accounts) == StartingBalances(accounts, parsed)
  {
    forall a | a in accounts.Values
      ensures a.Number in parsed && parsed[a.Number] == a.Balance
    {
      var k :| k in accounts && accounts[k] == a;
    }
  }

  /** A completed run keeps every balance non-negative and moves money only between accounts: the total is unchanged. */
  lemma CompletedRunConservesTotal(accounts: map<AccountNumber, Account>, parsed: map<AccountNumber, Decimal>, transactions: seq<Transaction>)
    requires Covers(accounts, StartingBalances(accounts, parsed))
    requires NonNegative(StartingBalances(accounts, parsed))
    requires Run(accounts, StartingBalances(accounts, parsed), transactions).status.Completed?
    ensures var final := Run(accounts, StartingBalances(accounts, parsed), transactions).balances;
      NonNegative(final) && Total(final) == Total(StartingBalances(accounts, parsed))
  {
    RunKeepsBalancesNonNegative(accounts, StartingBalances(accounts, parsed), transactions);
    RunConservesTotal(accounts, StartingBalances(accounts, parsed), transactions);
  }
}
