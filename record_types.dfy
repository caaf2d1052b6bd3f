/**
 * The raw rows the parsers read (the record classes under IO/Records), already
 * decoded from CSV and trimmed; the line-numbered data-format error both
 * parsers raise; and how a line-by-line read that stops at its first bad line
 * turns the outcomes of the single lines into the outcome of the whole read.
 */
module RecordTypes {
  import opened Wrappers
  import opened Numerics
  import opened AccountNumbers

  /** A row of the account-balances file: account-number text and balance. */
  datatype AccountBalanceRecord = AccountBalanceRecord(accountNumber: string, balance: Decimal)

  /** A row of the transactions file: sender text, receiver text and amount. */
  datatype TransactionRecord = TransactionRecord(fromAccount: string, toAccount: string, amount: Decimal)

  /** What a record is rejected for; texts are the raw field, numbers the parsed account. */
  datatype RecordError =
    | InvalidAccountNumberFormat(text: string)
    | NegativeBalance(balance: Decimal)
    | DuplicateAccountNumber(number: AccountNumber)
    | InvalidFromAccountFormat(text: string)
    | InvalidToAccountFormat(text: string)
    | SameAccount(number: AccountNumber)
    | UnknownFromAccount(number: AccountNumber)
    | UnknownToAccount(number: AccountNumber)
    | NegativeAmount(amount: Decimal)

  /** InvalidDataException "On line <line>: ...": the 1-based line of the offending record and what is wrong with it. */
  datatype DataError = DataError(line: nat, error: RecordError)

  /**
   * A read that goes line by line and throws at the first bad line: given the
   * outcome of each line in file order, the values of all lines, or the error
   * of the first line that failed.
   */
  function Collect<T>(results: seq<Result<T, DataError>>): (r: Result<seq<T>, DataError>)
    ensures r.Success? ==> |r.value| == |results|
    decreases |results|
  {
    if results == [] then Success([])
    else
      var n := |results|;
      match Collect(results[..n - 1])
      case Failure(e) => Failure(e)
      case Success(values) =>
        match results[n - 1]
        case Failure(e) => Failure(e)
        case Success(v) => Success(values + [v])
  }

  /** A read that succeeded met no bad line, and keeps every line's value in file order. */
  lemma {:induction false} CollectSucceeded<T>(results: seq<Result<T, DataError>>)
    requires Collect(results).Success?
    ensures forall i | 0 <= i < |results| :: results[i].Success? && Collect(results).value[i] == results[i].value
    decreases |results|
  {
    if results != [] {
      var n := |results|;
      var prefix := results[..n - 1];
      CollectSucceeded(prefix);
      assert forall i | 0 <= i < n - 1 :: prefix[i] == results[i];
    }
  }

  /** When no line fails, the read succeeds. */
  lemma {:induction false} CollectAllSucceed<T>(results: seq<Result<T, DataError>>)
    requires forall i | 0 <= i < |results| :: results[i].Success?
    ensures Collect(results).Success?
    decreases |results|
  {
    if results != [] {
      var n := |results|;
      var prefix := results[..n - 1];
      assert forall i | 0 <= i < n - 1 :: prefix[i] == results[i];
      CollectAllSucceed(prefix);
    }
  }

  /** The first bad line decides the error, whatever the lines after it hold. */
  lemma {:induction false} CollectFirstFailure<T>(results: seq<Result<T, DataError>>, j: nat)
    requires j < |results| && results[j].Failure?
    requires forall i | 0 <= i < j :: results[i].Success?
    ensures Collect(results) == Failure(results[j].error)
    decreases |results|
  {
    var n := |results|;
    var prefix := results[..n - 1];
    assert forall i | 0 <= i < n - 1 :: prefix[i] == results[i];
    if j == n - 1 {
      CollectAllSucceed(prefix);
    } else {
      CollectFirstFailure(prefix, j);
    }
  }

  /** A read that failed names the error of a line before which every line was good. */
  lemma CollectFailed<T>(results: seq<Result<T, DataError>>) returns (j: nat)
    requires Collect(results).Failure?
    ensures j < |results| && results[j] == Failure(Collect(results).error)
    ensures forall i | 0 <= i < j :: results[i].Success?
  {
    j := 0;
    while results[j].Success?
      invariant j < |results|
      invariant forall i | 0 <= i < j :: results[i].Success?
      decreases |results| - j
    {
      if j + 1 == |results| {
        CollectAllSucceed(results);
        assert false;
      }
      j := j + 1;
    }
    CollectFirstFailure(results, j);
  }

  /** The read of the first `k + 1` lines, from the read of the first `k`: a failure stays, otherwise line `k + 1` is added or fails. */
  lemma CollectNext<T>(results: seq<Result<T, DataError>>, k: nat)
    requires k < |results|
    ensures Collect(results[..k + 1]) ==
      if Collect(results[..k]).Failure? then Collect(results[..k])
      else if results[k].Failure? then Failure(results[k].error)
      else Success(Collect(results[..k]).value + [results[k].value])
  {
    assert results[..k + 1][..k] == results[..k];
  }

  /** Once the first `k` lines fail, the lines after them change nothing. */
  lemma {:induction false} CollectStaysFailed<T>(results: seq<Result<T, DataError>>, k: nat)
    requires k <= |results| && Collect(results[..k]).Failure?
    ensures Collect(results) == Collect(results[..k])
    decreases |results| - k
  {
    if k < |results| {
      CollectNext(results, k);
      CollectStaysFailed(results, k + 1);
    } else {
      assert results[..k] == results;
    }
  }
}
