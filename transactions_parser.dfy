/**
 * The transactions parser (IO/TransactionsParser.cs) over already-decoded
 * records: each record is checked against the set of known account numbers in a
 * fixed order, line by line from 1, and the first bad record aborts the whole
 * parse; the good ones are appended to a list in file order.
 */
module TransactionsParser {
  import opened Wrappers
  import opened Numerics
  import opened AccountNumbers
  import opened Transactions
  import opened RecordTypes

  /** A transaction the parser may hand out: between two different known accounts, with a non-negative amount. */
  predicate Acceptable(known: set<AccountNumber>, t: Transaction) {
    && t.Valid()
    && t.fromAccount != t.toAccount
    && t.fromAccount in known
    && t.toAccount in known
  }

  /**
   * `ValidateAndConvertTransaction`: six checks in a fixed order (sender format,
   * receiver format, same account, unknown sender, unknown receiver, negative
   * amount); the first that fails names the error, so each error below holds
   * only when every earlier check passed.
   */
  function ValidateAndConvertTransaction(known: set<AccountNumber>, record: TransactionRecord, line: nat): (r: Result<Transaction, DataError>)
    ensures r.Success? <==>
      && AccountNumber.TryParse(record.fromAccount).Some?
      && AccountNumber.TryParse(record.toAccount).Some?
      && Acceptable(known, Transaction(AccountNumber.TryParse(record.fromAccount).value,
                                       AccountNumber.TryParse(record.toAccount).value, record.amount))
    ensures r.Success? ==> r.value == Transaction(AccountNumber.TryParse(record.fromAccount).value,
                                                  AccountNumber.TryParse(record.toAccount).value, record.amount)
    ensures r.Success? ==> Acceptable(known, r.value)
    ensures r.Success? ==> Transaction.Create(r.value.fromAccount, r.value.toAccount, r.value.amount) == Success(r.value)
    ensures r.Failure? ==> r.error.line == line
  {
    match AccountNumber.TryParse(record.fromAccount)
    case None => Failure(DataError(line, InvalidFromAccountFormat(record.fromAccount)))
    case Some(fromAccount) =>
      match AccountNumber.TryParse(record.toAccount)
      case None => Failure(DataError(line, InvalidToAccountFormat(record.toAccount)))
      case Some(toAccount) =>
        if fromAccount == toAccount then Failure(DataError(line, SameAccount(fromAccount)))
        else if fromAccount !in known then Failure(DataError(line, UnknownFromAccount(fromAccount)))
        else if toAccount !in known then Failure(DataError(line, UnknownToAccount(toAccount)))
        else if record.amount < 0.0 then Failure(DataError(line, NegativeAmount(record.amount)))
        else Success(Transaction(fromAccount, toAccount, record.amount))
  }

  /**
   * The checks run in a fixed order: each error is reported only when every
   * earlier check passed, so a record failing several checks gets the first.
   */
  lemma ValidationOrder(known: set<AccountNumber>, record: TransactionRecord, line: nat)
    ensures var r := ValidateAndConvertTransaction(known, record, line);
      AccountNumber.TryParse(record.fromAccount).None? ==>
        r == Failure(DataError(line, InvalidFromAccountFormat(record.fromAccount)))
    ensures var r := ValidateAndConvertTransaction(known, record, line);
      AccountNumber.TryParse(record.fromAccount).Some? && AccountNumber.TryParse(record.toAccount).None? ==>
        r == Failure(DataError(line, InvalidToAccountFormat(record.toAccount)))
    ensures var r := ValidateAndConvertTransaction(known, record, line);
      var from, to := AccountNumber.TryParse(record.fromAccount), AccountNumber.TryParse(record.toAccount);
      from.Some? && to.Some? ==>
        && (from.value == to.value ==> r == Failure(DataError(line, SameAccount(from.value))))
        && (from.value != to.value && from.value !in known ==> r == Failure(DataError(line, UnknownFromAccount(from.value))))
        && (from.value != to.value && from.value in known && to.value !in known ==>
              r == Failure(DataError(line, UnknownToAccount(to.value))))
        && (from.value != to.value && from.value in known && to.value in known && record.amount < 0.0 ==>
              r == Failure(DataError(line, NegativeAmount(record.amount))))
  {
  }

  /** Each record's outcome, record `i` on line `i + 1`. */
  function ValidateAll(known: set<AccountNumber>, records: seq<TransactionRecord>): (rs: seq<Result<Transaction, DataError>>)
    ensures |rs| == |records|
    ensures forall i | 0 <= i < |records| :: rs[i] == ValidateAndConvertTransaction(known, records[i], i + 1)
  {
    seq(|records|, i requires 0 <= i < |records| => ValidateAndConvertTransaction(known, records[i], i + 1))
  }

  /**
   * The whole parse: the records are validated in file order and the first bad
   * one stops it. Every transaction handed out is acceptable.
   */
  function ParseTransactions(known: set<AccountNumber>, records: seq<TransactionRecord>): (r: Result<seq<Transaction>, DataError>)
    ensures r.Success? ==> |r.value| == |records|
    ensures r.Success? ==> forall i | 0 <= i < |r.value| :: Acceptable(known, r.value[i])
  {
    var rs := ValidateAll(known, records);
    if Collect(rs).Success? then CollectSucceeded(rs); Collect(rs) else Collect(rs)
  }

  /**
   * On success, the list holds, in file order, exactly what each record
   * converts to; and the parse succeeds exactly when every record converts.
   */
  lemma ParsedTransactionsMatchRecords(known: set<AccountNumber>, records: seq<TransactionRecord>)
    ensures ParseTransactions(known, records).Success? <==>
      forall i | 0 <= i < |records| :: ValidateAndConvertTransaction(known, records[i], i + 1).Success?
    ensures ParseTransactions(known, records).Success? ==>
      forall i | 0 <= i < |records| :: ParseTransactions(known, records).value[i] == ValidateAndConvertTransaction(known, records[i], i + 1).value
  {
    var rs := ValidateAll(known, records);
    if Collect(rs).Success? {
      CollectSucceeded(rs);
    } else if forall i | 0 <= i < |records| :: rs[i].Success? {
      CollectAllSucceed(rs);
    }
  }

  /**
   * On failure, the reported error is that of the first record that does not
   * convert, and it names that record's line.
   */
  lemma ParseTransactionsFirstFailure(known: set<AccountNumber>, records: seq<TransactionRecord>)
    requires ParseTransactions(known, records).Failure?
    ensures var e := ParseTransactions(known, records).error;
      && 1 <= e.line <= |records|
      && (forall i | 0 <= i < e.line - 1 :: ValidateAndConvertTransaction(known, records[i], i + 1).Success?)
      && ValidateAndConvertTransaction(known, records[e.line - 1], e.line) == Failure(e)
  {
    var rs := ValidateAll(known, records);
    var j := CollectFailed(rs);
    assert rs[j] == ValidateAndConvertTransaction(known, records[j], j + 1);
  }

  /** The first bad record decides the error, whatever the records after it hold. */
  lemma ParseTransactionsStopsAtFirstFailure(known: set<AccountNumber>, records: seq<TransactionRecord>, j: nat)
    requires j < |records| && ValidateAndConvertTransaction(known, records[j], j + 1).Failure?
    requires forall i | 0 <= i < j :: ValidateAndConvertTransaction(known, records[i], i + 1).Success?
    ensures ParseTransactions(known, records) == Failure(ValidateAndConvertTransaction(known, records[j], j + 1).error)
  {
    CollectFirstFailure(ValidateAll(known, records), j);
  }

  /**
   * `ParseFromCsvAsync` over decoded records: a loop with a 1-based line counter
   * that validates each record against the known accounts and appends it.
   */
  method ParseFromRecords(known: set<AccountNumber>, records: seq<TransactionRecord>) returns (r: Result<seq<Transaction>, DataError>)
    ensures r == ParseTransactions(known, records)
  {
    ghost var rs := ValidateAll(known, records);
    var transactions: seq<Transaction> := [];
    for line := 1 to |records| + 1
      invariant Collect(rs[..line - 1]) == Success(transactions)
    {
      CollectNext(rs, line - 1);
      var transaction := ValidateAndConvertTransaction(known, records[line - 1], line);
      if transaction.Failure? {
        CollectStaysFailed(rs, line);
        return Failure(transaction.error);
      }
      transactions := transactions + [transaction.value];
    }
    assert rs[..|records|] == rs;
    return Success(transactions);
  }

  /** An empty file yields no transactions. */
  lemma EmptyYieldsNoTransactions(known: set<AccountNumber>)
    ensures ParseTransactions(known, []) == Success([])
  {
  }

  /** A transfer from account 4 to itself on line 2 is reported there, after line 1 converted. */
  lemma SameAccountOnLineTwo()
    ensures
      var known := {AccountNumber(1), AccountNumber(2), AccountNumber(3), AccountNumber(4)};
      ParseTransactions(known, [TransactionRecord("1", "2", 10.0), TransactionRecord("0000000000000004", "4", 1.0)])
        == Failure(DataError(2, SameAccount(AccountNumber(4))))
  {
    var known := {AccountNumber(1), AccountNumber(2), AccountNumber(3), AccountNumber(4)};
    var records := [TransactionRecord("1", "2", 10.0), TransactionRecord("0000000000000004", "4", 1.0)];
    OneDigitParses("1", 1);
    OneDigitParses("2", 2);
    OneDigitParses("4", 4);
    LeadingZerosIgnored(15, "4");
    PaddedLiterals();
    ParseTransactionsStopsAtFirstFailure(known, records, 1);
  }

  /** An account number missing from the known set is reported as an unknown sender, before the amount is looked at. */
  lemma UnknownSenderOnLineOne()
    ensures ParseTransactions({AccountNumber(1), AccountNumber(2)}, [TransactionRecord("5", "1", -2.0)])
      == Failure(DataError(1, UnknownFromAccount(AccountNumber(5))))
  {
    OneDigitParses("5", 5);
    OneDigitParses("1", 1);
    ParseTransactionsStopsAtFirstFailure({AccountNumber(1), AccountNumber(2)}, [TransactionRecord("5", "1", -2.0)], 0);
  }
}
