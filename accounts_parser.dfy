/**
 * The account-balances parser (IO/AccountsParser.cs) over already-decoded
 * records: each record is checked in a fixed order, line by line from 1, and
 * the first bad record aborts the whole parse; a good one becomes an Account
 * in a dictionary keyed by its number, where a repeated number is an error.
 */
module AccountsParser {
  import opened Wrappers
  import opened Numerics
  import opened AccountNumbers
  import opened Accounts
  import opened RecordTypes

  /**
   * `ValidateAndConvertRecord`: the account-number text must parse, and only then
   * is the balance checked for sign. A valid record yields the number and balance
   * the Account is built from.
   */
  function ValidateAndConvertRecord(record: AccountBalanceRecord, line: nat): (r: Result<(AccountNumber, Decimal), DataError>)
    ensures r.Success? <==> AccountNumber.TryParse(record.accountNumber).Some? && record.balance >= 0.0
    ensures r.Success? ==> r.value == (AccountNumber.TryParse(record.accountNumber).value, record.balance)
    ensures r.Success? ==> r.value.0.value >= 1 && r.value.1 >= 0.0
    ensures AccountNumber.TryParse(record.accountNumber).None? ==>
      r == Failure(DataError(line, InvalidAccountNumberFormat(record.accountNumber)))
    ensures AccountNumber.TryParse(record.accountNumber).Some? && record.balance < 0.0 ==>
      r == Failure(DataError(line, NegativeBalance(record.balance)))
  {
    match AccountNumber.TryParse(record.accountNumber)
    case None => Failure(DataError(line, InvalidAccountNumberFormat(record.accountNumber)))
    case Some(number) =>
      if record.balance < 0.0 then Failure(DataError(line, NegativeBalance(record.balance)))
      else Success((number, record.balance))
  }

  /** Each record's outcome, record `i` on line `i + 1`. */
  function ValidateAll(records: seq<AccountBalanceRecord>): (rs: seq<Result<(AccountNumber, Decimal), DataError>>)
    ensures |rs| == |records|
    ensures forall i | 0 <= i < |records| :: rs[i] == ValidateAndConvertRecord(records[i], i + 1)
  {
    seq(|records|, i requires 0 <= i < |records| => ValidateAndConvertRecord(records[i], i + 1))
  }

  /**
   * The dictionary built from the outcome of each line in file order: the first
   * bad line stops the read, and a number already in the dictionary is reported
   * as a duplicate on the line that repeats it.
   */
  function CollectAccounts(results: seq<Result<(AccountNumber, Decimal), DataError>>): (r: Result<map<AccountNumber, Decimal>, DataError>)
    ensures r.Success? ==> |r.value| == |results|
    decreases |results|
  {
    if results == [] then Success(map[])
    else
      var line := |results|;
      match CollectAccounts(results[..line - 1])
      case Failure(e) => Failure(e)
      case Success(balances) =>
        match results[line - 1]
        case Failure(e) => Failure(e)
        case Success((number, balance)) =>
          if number in balances then Failure(DataError(line, DuplicateAccountNumber(number)))
          else Success(balances[number := balance])
  }

  /**
   * A read that succeeded met no bad line and no repeated number, and holds
   * each line's number with its balance, and nothing else.
   */
  lemma {:induction false} CollectAccountsSucceeded(results: seq<Result<(AccountNumber, Decimal), DataError>>)
    requires CollectAccounts(results).Success?
    ensures forall i | 0 <= i < |results| ::
      results[i].Success? && results[i].value.0 in CollectAccounts(results).value &&
      CollectAccounts(results).value[results[i].value.0] == results[i].value.1
    ensures forall i, j | 0 <= i < j < |results| :: results[i].value.0 != results[j].value.0
    ensures forall k | k in CollectAccounts(results).value :: exists i | 0 <= i < |results| :: results[i].value.0 == k
    decreases |results|
  {
    if results != [] {
      var n := |results|;
      var prefix := results[..n - 1];
      CollectAccountsSucceeded(prefix);
      var m := CollectAccounts(prefix).value;
      var last := results[n - 1];
      assert last.Success? && last.value.0 !in m;
      var m' := m[last.value.0 := last.value.1];
      assert CollectAccounts(results) == Success(m');
      forall i | 0 <= i < n
        ensures results[i].Success? && results[i].value.0 in m' && m'[results[i].value.0] == results[i].value.1
      {
        if i < n - 1 {
          assert results[i] == prefix[i];
        }
      }
      forall i, j | 0 <= i < j < n
        ensures results[i].value.0 != results[j].value.0
      {
        assert results[i] == prefix[i];
        if j < n - 1 {
          assert results[j] == prefix[j];
        }
      }
      forall k | k in m'
        ensures exists i | 0 <= i < n :: results[i].value.0 == k
      {
        if k == last.value.0 {
          assert results[n - 1].value.0 == k;
        } else {
          var i :| 0 <= i < n - 1 && prefix[i].value.0 == k;
          assert results[i] == prefix[i];
        }
      }
    }
  }

  /**
   * A read that failed stopped at a line before which the read was good: that
   * line was bad, or it repeated a number read before.
   */
  lemma {:induction false} CollectAccountsFailed(results: seq<Result<(AccountNumber, Decimal), DataError>>) returns (j: nat)
    requires CollectAccounts(results).Failure?
    ensures j < |results| && CollectAccounts(results[..j]).Success?
    ensures results[j].Failure? ==> CollectAccounts(results).error == results[j].error
    ensures results[j].Success? ==>
      && results[j].value.0 in CollectAccounts(results[..j]).value
      && CollectAccounts(results).error == DataError(j + 1, DuplicateAccountNumber(results[j].value.0))
    decreases |results|
  {
    var n := |results|;
    var prefix := results[..n - 1];
    if CollectAccounts(prefix).Failure? {
      j := CollectAccountsFailed(prefix);
      assert prefix[..j] == results[..j] && prefix[j] == results[j];
    } else {
      j := n - 1;
    }
  }

  /** The read of the first `k + 1` lines, from the read of the first `k`. */
  lemma CollectAccountsNext(results: seq<Result<(AccountNumber, Decimal), DataError>>, k: nat)
    requires k < |results|
    ensures CollectAccounts(results[..k + 1]) ==
      if CollectAccounts(results[..k]).Failure? then CollectAccounts(results[..k])
      else if results[k].Failure? then Failure(results[k].error)
      else if results[k].value.0 in CollectAccounts(results[..k]).value then Failure(DataError(k + 1, DuplicateAccountNumber(results[k].value.0)))
      else Success(CollectAccounts(results[..k]).value[results[k].value.0 := results[k].value.1])
  {
    assert results[..k + 1][..k] == results[..k];
  }

  /** One more line, read on top of a good read of the lines before it; a failure there is final. */
  lemma CollectAccountsStep(results: seq<Result<(AccountNumber, Decimal), DataError>>, line: nat, balances: map<AccountNumber, Decimal>)
    requires 1 <= line <= |results| && CollectAccounts(results[..line - 1]) == Success(balances)
    ensures results[line - 1].Failure? ==> CollectAccounts(results) == Failure(results[line - 1].error)
    ensures results[line - 1].Success? && results[line - 1].value.0 in balances ==>
      CollectAccounts(results) == Failure(DataError(line, DuplicateAccountNumber(results[line - 1].value.0)))
    ensures results[line - 1].Success? && results[line - 1].value.0 !in balances ==>
      CollectAccounts(results[..line]) == Success(balances[results[line - 1].value.0 := results[line - 1].value.1])
  {
    CollectAccountsNext(results, line - 1);
    if CollectAccounts(results[..line]).Failure? {
      CollectAccountsStaysFailed(results, line);
    }
  }

  /** Once the first `k` lines fail, the lines after them change nothing. */
  lemma {:induction false} CollectAccountsStaysFailed(results: seq<Result<(AccountNumber, Decimal), DataError>>, k: nat)
    requires k <= |results| && CollectAccounts(results[..k]).Failure?
    ensures CollectAccounts(results) == CollectAccounts(results[..k])
    decreases |results| - k
  {
    if k < |results| {
      CollectAccountsNext(results, k);
      CollectAccountsStaysFailed(results, k + 1);
    } else {
      assert results[..k] == results;
    }
  }

  /** The whole parse, as the balance of each account number. Every number is positive and every balance non-negative. */
  function ParseAccounts(records: seq<AccountBalanceRecord>): (r: Result<map<AccountNumber, Decimal>, DataError>)
    ensures r.Success? ==> |r.value| == |records|
    ensures r.Success? ==> forall k | k in r.value :: k.value >= 1 && r.value[k] >= 0.0
  {
    var rs := ValidateAll(records);
    if CollectAccounts(rs).Success? then CollectAccountsSucceeded(rs); CollectAccounts(rs) else CollectAccounts(rs)
  }

  /**
   * On success there is one entry per record: every record was valid, the numbers
   * are pairwise distinct, and each number maps to its own record's balance.
   */
  lemma ParsedAccountsMatchRecords(records: seq<AccountBalanceRecord>)
    requires ParseAccounts(records).Success?
    ensures forall i | 0 <= i < |records| ::
      var v := ValidateAndConvertRecord(records[i], i + 1);
      v.Success? && v.value.0 in ParseAccounts(records).value && ParseAccounts(records).value[v.value.0] == v.value.1
    ensures forall i, j | 0 <= i < j < |records| ::
      ValidateAndConvertRecord(records[i], i + 1).Success? && ValidateAndConvertRecord(records[j], j + 1).Success? ==>
      ValidateAndConvertRecord(records[i], i + 1).value.0 != ValidateAndConvertRecord(records[j], j + 1).value.0
  {
    CollectAccountsSucceeded(ValidateAll(records));
  }

  /**
   * On failure, the reported line is the first bad record: every record before it
   * is valid, and that record either fails its own checks or repeats a number seen earlier.
   */
  lemma ParseAccountsFirstFailure(records: seq<AccountBalanceRecord>)
    requires ParseAccounts(records).Failure?
    ensures 1 <= ParseAccounts(records).error.line <= |records|
    ensures var e := ParseAccounts(records).error;
      var v := ValidateAndConvertRecord(records[e.line - 1], e.line);
      && ParseAccounts(records[..e.line - 1]).Success?
      && (v.Failure? ==> e == v.error)
      && (v.Success? ==> v.value.0 in ParseAccounts(records[..e.line - 1]).value && e == DataError(e.line, DuplicateAccountNumber(v.value.0)))
  {
    var rs := ValidateAll(records);
    var j := CollectAccountsFailed(rs);
    assert rs[j] == ValidateAndConvertRecord(records[j], j + 1);
    assert ValidateAll(records[..j]) == rs[..j];
    if rs[j].Failure? {
      assert ValidateAndConvertRecord(records[j], j + 1).error.line == j + 1;
    }
  }

  /** The accounts the parser hands out: keyed by their own numbers, with the parsed balances. */
  ghost predicate Represents(accounts: map<AccountNumber, Account>, balances: map<AccountNumber, Decimal>)
    reads accounts.Values
  {
    && accounts.Keys == balances.Keys
    && forall k | k in accounts :: accounts[k].Number == k && accounts[k].Balance == balances[k] && accounts[k].Valid()
  }

  /** No two account numbers share an Account object. */
  predicate Distinct(accounts: map<AccountNumber, Account>) {
    forall k1, k2 | k1 in accounts && k2 in accounts && k1 != k2 :: accounts[k1] != accounts[k2]
  }

  /**
   * `ParseFromCsvAsync` over decoded records: a loop with a 1-based line counter
   * that validates each record, rejects a number already in the dictionary, and
   * adds a new Account otherwise.
   */
  method ParseFromRecords(records: seq<AccountBalanceRecord>) returns (r: Result<map<AccountNumber, Account>, DataError>)
    ensures r.Failure? <==> ParseAccounts(records).Failure?
    ensures r.Failure? ==> r.error == ParseAccounts(records).error
    ensures r.Success? ==> Represents(r.value, ParseAccounts(records).value) && Distinct(r.value)
    ensures r.Success? ==> forall k | k in r.value :: fresh(r.value[k])
  {
    ghost var rs := ValidateAll(records);
    var accounts: map<AccountNumber, Account> := map[];
    ghost var balances: map<AccountNumber, Decimal> := map[];
    for line := 1 to |records| + 1
      invariant CollectAccounts(rs[..line - 1]) == Success(balances)
      invariant Represents(accounts, balances) && Distinct(accounts)
      invariant forall k | k in accounts :: fresh(accounts[k])
    {
      CollectAccountsStep(rs, line, balances);
      var v := ValidateAndConvertRecord(records[line - 1], line);
      if v.Failure? {
        return Failure(v.error);
      }
      var (number, balance) := v.value;
      if number in accounts {
        return Failure(DataError(line, DuplicateAccountNumber(number)));
      }
      var account := new Account(number, balance);
      AddKeepsRepresents(accounts, balances, account);
      accounts := accounts[number := account];
      balances := balances[number := balance];
    }
    assert rs[..|records|] == rs;
    return Success(accounts);
  }

  /** Adding a fresh, valid account under its own number keeps the map in step with the balances. */
  lemma AddKeepsRepresents(accounts: map<AccountNumber, Account>, balances: map<AccountNumber, Decimal>, account: Account)
    requires Represents(accounts, balances) && Distinct(accounts)
    requires account.Valid() && account !in accounts.Values
    ensures Represents(accounts[account.Number := account], balances[account.Number := account.Balance])
    ensures Distinct(accounts[account.Number := account])
  {
  }

  /** An empty file yields no accounts. */
  lemma EmptyYieldsNoAccounts()
    ensures ParseAccounts([]) == Success(map[])
  {
  }

  /** Three good records where the third repeats the number of the first, but not of the second: the parse fails on line 3. */
  lemma ThirdRepeatsFirst(records: seq<AccountBalanceRecord>)
    requires |records| == 3
    requires ValidateAndConvertRecord(records[0], 1).Success? && ValidateAndConvertRecord(records[1], 2).Success?
    requires ValidateAndConvertRecord(records[2], 3).Success?
    requires ValidateAndConvertRecord(records[0], 1).value.0 != ValidateAndConvertRecord(records[1], 2).value.0
    requires ValidateAndConvertRecord(records[2], 3).value.0 == ValidateAndConvertRecord(records[0], 1).value.0
    ensures ParseAccounts(records) == Failure(DataError(3, DuplicateAccountNumber(ValidateAndConvertRecord(records[2], 3).value.0)))
  {
    var results := ValidateAll(records);
    CollectAccountsNext(results, 0);
    CollectAccountsNext(results, 1);
    CollectAccountsNext(results, 2);
    assert results[..0] == [] && results[..3] == results;
  }

  /** The three records of the duplicate example, each valid on its own. */
  lemma DuplicateExampleRecords()
    ensures ValidateAndConvertRecord(AccountBalanceRecord("1", 5000.0), 1) == Success((AccountNumber(1), 5000.0))
    ensures ValidateAndConvertRecord(AccountBalanceRecord("2", 10000.0), 2) == Success((AccountNumber(2), 10000.0))
    ensures ValidateAndConvertRecord(AccountBalanceRecord("0000000000000001", 3.0), 3) == Success((AccountNumber(1), 3.0))
  {
    OneDigitParses("1", 1);
    OneDigitParses("2", 2);
    LeadingZerosIgnored(15, "1");
    PaddedLiterals();
  }

  /** A number repeated on line 3, even written differently, is reported there in canonical form. */
  lemma DuplicateOnLineThree(records: seq<AccountBalanceRecord>)
    requires records == [AccountBalanceRecord("1", 5000.0), AccountBalanceRecord("2", 10000.0),
                         AccountBalanceRecord("0000000000000001", 3.0)]
    ensures ParseAccounts(records) == Failure(DataError(3, DuplicateAccountNumber(AccountNumber(1))))
  {
    DuplicateExampleRecords();
    assert records[0] == AccountBalanceRecord("1", 5000.0);
    assert records[1] == AccountBalanceRecord("2", 10000.0);
    assert records[2] == AccountBalanceRecord("0000000000000001", 3.0);
    ThirdRepeatsFirst(records);
  }
}
