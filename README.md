# SimpleBankingService in Dafny

A model of the transfer pipeline of SimpleBankingService, a small batch-transfer service. It reads a file of account
balances and a file of transfers, checks every row, and applies the transfers in order to the accounts in memory.
The first failure stops everything.

The model covers these pieces:

- **Account numbers** (`account_number.dfy`, module `AccountNumbers`).
  - An `AccountNumber` is a value over a non-negative `long`.
  - Its canonical text form is zero-padded to 16 digits (`D16`).
  - `TryParse` never fails loudly. It accepts at most 16 characters forming an integer literal (an optional sign, then
    decimal digits) whose value is above zero.
  - The proofs cover: what `TryParse` accepts, in both directions; that leading zeros are ignored; the round trip from
    `ToString` back through `TryParse`, and exactly where it holds; and the examples from the unit tests.
- **Accounts** (`account.dfy`, module `Accounts`).
  - `Account` is a class with an immutable `Number` and a mutable `Balance` that never drops below zero.
  - `ApplyToBalance` either adds the amount or fails with no change. It fails when the balance cannot cover a debit, or
    when the sum would exceed the largest `decimal`.
- **Transactions** (`transaction.dfy`, module `Transactions`): an immutable (from, to, amount) triple. Its constructor
  rejects only a negative amount.
- **The processor** (`transaction_processor.dfy`, module `TransactionProcessor`).
  - `ApplyTransactionsToAccounts` is a loop that looks up both accounts of each transfer, debits the sender, credits
    the receiver, and mutates the `Account` objects in place. It stops at the first exception and undoes nothing.
  - The method is proved against the function `Run`. `Run` tracks the balance of every account object, so a transfer
    from an account to itself, or two keys sharing one object, come out exactly as the in-place updates do.
  - Proved about `Run`:
    - no balance ever goes negative;
    - a completed batch conserves the total;
    - untouched accounts keep their balances;
    - the batch is fail-fast and order-dependent;
    - a failed debit changes nothing;
    - the three unit-test scenarios come out as the tests expect.
- **The parsers** (`accounts_parser.dfy`, `transactions_parser.dfy`, with shared records and errors in
  `record_types.dfy`).
  - Both parsers work over rows already decoded from CSV, with 1-based line numbers.
  - Each row goes through checks in a fixed order, and the first bad row aborts the parse with a line-numbered error.
  - The accounts parser builds a dictionary and rejects a repeated number on the line that repeats it.
  - The transactions parser builds a list, checking each row against the set of known account numbers.
  - Each parser is a loop method proved equal to a pure specification. The specification is a row-by-row validation
    followed by a fold that stops at the first failure: `Collect`, or `CollectAccounts`, which adds the duplicate
    check.
  - The fold's lemmas give: the outcome on success, row by row and in order; the first failing row on failure;
    distinct keys with their own balances; and that every accepted transaction is between two different known
    accounts.
- **The processTransactions command** (`process_transactions.dfy`, module `ProcessTransactions`).
  - It composes the three stages in the order `RunAsync` runs them.
  - The proof shows that transactions parsed against the parsed accounts' key set never reach the processor's
    missing-key failure.

C# `decimal` is an exact `real` bounded by `MAX_DEC` (2^96 − 1). `long` is an `int` subset type. Exceptions are
`Result`/`Option` values whose error datatypes name the exception and the fields its message carries.

## Model

| member | source | states |
|---|---|---|
| AccountNumbers.AccountNumber.Create | SimpleBankingService/Models/AccountNumber.cs:8-12 | fails with an out-of-range error on `value` exactly when the value is negative; 0 and every positive `long` are accepted and stored unchanged |
| AccountNumbers.AccountNumber.ToString | SimpleBankingService/Models/AccountNumber.cs:16-19 | the text is all decimal digits whose value is the number, at least 16 long, and exactly 16 long iff the number has at most 16 digits; a number of more than 16 digits prints as its plain digits, with no padding |
| AccountNumbers.CanonicalFormUnique | SimpleBankingService/Models/AccountNumber.cs:16-19 | the canonical form is the one 16-digit string with the number's value |
| AccountNumbers.ToStringExample | SimpleBankingService.UnitTests/Models/AccountNumberTests.cs:35-40 | 12345 prints as "0000000000012345" |
| AccountNumbers.LongSpellingParses | SimpleBankingService/Models/AccountNumber.cs:35 | `long.TryParse` reads back every `long` written in decimal, with a leading '-' for a negative one |
| AccountNumbers.ShortLiteralFitsLong | SimpleBankingService/Models/AccountNumber.cs:31-36 | a literal of at most 16 characters always fits in a `long`, so the length check rules out overflow |
| AccountNumbers.AccountNumber.TryParse | SimpleBankingService/Models/AccountNumber.cs:28-41 | over 16 characters always fails; a success lies in 1..9999999999999999 |
| AccountNumbers.TryParseSucceedsIff | SimpleBankingService/Models/AccountNumber.cs:28-41 | succeeds iff the text has at most 16 characters, is an integer literal and denotes a value above 0, and then yields that value |
| AccountNumbers.NegativeLiteralRejected | SimpleBankingService/Models/AccountNumber.cs:38 | "-" followed by digits never parses, "-0" included |
| AccountNumbers.NonDigitRejected | SimpleBankingService/Models/AccountNumber.cs:35-36 | any non-digit after the first character makes parsing fail |
| AccountNumbers.OneDigitParses | SimpleBankingService/Models/AccountNumber.cs:28-41 | a single digit 1-9 parses to that number |
| AccountNumbers.LeadingZerosIgnored | SimpleBankingService/Models/AccountNumber.cs:21-27 | prefixing zeros, within 16 characters, does not change the result |
| AccountNumbers.TryParseAcceptanceExamples | SimpleBankingService.UnitTests/Models/AccountNumberTests.cs:43-55 | "12345", "0012345" and "0000000000012345" all parse to 12345 |
| AccountNumbers.TryParseBoundaryExamples | SimpleBankingService.UnitTests/Models/AccountNumberTests.cs:43-55 | "9999999999999999" parses to 9999999999999999 and "1" to 1 |
| AccountNumbers.LargestAccountNumber | SimpleBankingService/Models/AccountNumber.cs:16-19 | the largest account number prints as sixteen nines, and that text parses back to it |
| AccountNumbers.TryParseRejectionExamples | SimpleBankingService.UnitTests/Models/AccountNumberTests.cs:68-83 | "", "1234aa", "--1234", "0x1234" and the 17-character "00000000000000001", "10000000000000000" and "12345678901234567" are rejected |
| AccountNumbers.TryParseNonPositiveExamples | SimpleBankingService.UnitTests/Models/AccountNumberTests.cs:57-66 | "0", "-0" and "-1" are rejected |
| AccountNumbers.TryParseNegativeExamples | SimpleBankingService.UnitTests/Models/AccountNumberTests.cs:57-66 | "-12345", "-1234567890123456" and "-9999999999999999" are rejected |
| AccountNumbers.ParseFormatRoundTrip | SimpleBankingService/Models/AccountNumber.cs:16-41 | for 1 ≤ v ≤ 9999999999999999, parsing the canonical form gives back the same account number |
| AccountNumbers.RoundTripExactlyInRange | SimpleBankingService/Models/AccountNumber.cs:16-41 | the round trip succeeds iff 1 ≤ v ≤ 9999999999999999 (0 and 17-digit values print but do not parse back) |
| AccountNumbers.EqualityByValue | SimpleBankingService/Models/AccountNumber.cs:6 | two account numbers are equal iff their values are |
| Accounts.ApplyAmount | SimpleBankingService/Models/Account.cs:27-36 | from a non-negative balance: insufficient-balance iff balance + amount < 0, naming the account, the debit and the balance; overflow iff the guard passes and the sum exceeds the decimal maximum; otherwise the sum, never negative |
| Accounts.DebitThenCreditRestores | SimpleBankingService/Models/Account.cs:27-36 | a successful debit followed by a credit of the same amount restores the balance |
| Accounts.Account.constructor | SimpleBankingService/Models/Account.cs:8-13 | stores number and balance as given, and the account starts valid (balance ≥ 0) |
| Accounts.Account.Create | SimpleBankingService/Models/Account.cs:8-13 | fails with an out-of-range error on `balance` iff the balance is negative; otherwise a new valid account with that number and balance |
| Accounts.Account.CanApplyToBalance | SimpleBankingService/Models/Account.cs:20-25 | true for every non-negative amount; for a valid account, true iff the resulting balance is non-negative |
| Accounts.Account.ApplyToBalance | SimpleBankingService/Models/Account.cs:27-36 | returns what `ApplyAmount` gives for the old balance; the balance becomes the result on success and is unchanged on failure; validity (balance ≥ 0) is preserved |
| Transactions.Transaction.Create | SimpleBankingService/Models/Transaction.cs:8-14 | succeeds iff amount ≥ 0 (so 0 is accepted), keeps the three arguments, and otherwise fails with an out-of-range error on `amount` |
| Transactions.SameAccountAllowed | SimpleBankingService/Models/Transaction.cs:8-14 | a transfer from an account to itself is constructed without complaint |
| TransactionProcessor.Step | SimpleBankingService/TransactionProcessorCore.cs:19-24 | a missing sender or receiver fails on that key before any balance changes; no account object is added or dropped |
| TransactionProcessor.Run | SimpleBankingService/TransactionProcessorCore.cs:17-25 | the set of accounts with a balance never changes |
| TransactionProcessor.ApplyTransaction | SimpleBankingService/TransactionProcessorCore.cs:19-24 | the in-place lookups, debit and credit leave the accounts' balances and status exactly as `Step` says, and keep every account valid |
| TransactionProcessor.ApplyTransactionsToAccounts | SimpleBankingService/TransactionProcessorCore.cs:15-26 | after the loop, the accounts hold the balances `Run` gives from the starting balances, the status is `Run`'s, and every account stays valid |
| TransactionProcessor.RunAppend | SimpleBankingService/TransactionProcessorCore.cs:17 | fail-fast in order: a batch runs as its first part, then the rest only if the first part completed |
| TransactionProcessor.RunKeepsBalancesNonNegative | SimpleBankingService/TransactionProcessorCore.cs:11 | from non-negative balances, every balance stays non-negative; with `RunAppend`, this holds after every prefix too |
| TransactionProcessor.InsufficientDebitChangesNothing | SimpleBankingService/TransactionProcessorCore.cs:22-23 | a transfer failing for lack of funds fails on the sender's debit, reports the sender's balance, and changes no balance |
| TransactionProcessor.OverflowKeepsDebit | SimpleBankingService/TransactionProcessorCore.cs:23-24 | a transfer that fails on the receiver's credit names two known, distinct accounts and keeps the sender's debit: no rollback |
| TransactionProcessor.SelfTransferChangesNothing | SimpleBankingService/TransactionProcessorCore.cs:20-24 | when both numbers resolve to the same account object, the transfer leaves every balance as it was if the balance covers it, and otherwise fails for lack of funds with nothing changed |
| TransactionProcessor.TransferCompletes | SimpleBankingService/TransactionProcessorCore.cs:23-24 | a covered, non-overflowing transfer between two distinct accounts subtracts the amount from one and adds it to the other |
| TransactionProcessor.RunLeavesOtherAccounts | SimpleBankingService/TransactionProcessorCore.cs:15-26 | an account no transfer names keeps its balance |
| TransactionProcessor.KnownAccountsNeverMissing | SimpleBankingService/TransactionProcessorCore.cs:19-21 | when every transfer names keys in the dictionary, processing never fails on a missing key |
| TransactionProcessor.StepConservesTotal | SimpleBankingService/TransactionProcessorCore.cs:23-24 | a completed transfer leaves the sum of all balances unchanged |
| TransactionProcessor.RunConservesTotal | SimpleBankingService/TransactionProcessorCore.cs:17-25 | a completed batch leaves the sum of all balances unchanged |
| TransactionProcessor.ExampleBatchCompletes | SimpleBankingService.UnitTests/TransactionProcessorCoreTests.cs:10-39 | {1:100, 2:200, 3:0, 4:1000} with 1→2 50, 2→3 250, 4→3 700, 3→2 650 ends at {1:50, 2:650, 3:300, 4:300} |
| TransactionProcessor.ExampleUnknownAccount | SimpleBankingService.UnitTests/TransactionProcessorCoreTests.cs:41-57 | a transfer to an account not in the dictionary fails on that key and changes nothing |
| TransactionProcessor.ExampleBatchStopsOnOverdraft | SimpleBankingService.UnitTests/TransactionProcessorCoreTests.cs:59-83 | the second transfer finds account 1 at 130 and fails for 150; the first stays applied and the third is never tried |
| RecordTypes.Collect | SimpleBankingService/IO/TransactionsParser.cs:30-36 | a line-by-line read that stops at the first bad line; on success it has one value per line |
| RecordTypes.CollectSucceeded | SimpleBankingService/IO/TransactionsParser.cs:30-36 | a successful read met no bad line and keeps every line's value in file order |
| RecordTypes.CollectAllSucceed | SimpleBankingService/IO/TransactionsParser.cs:30-36 | when no line fails, the read succeeds |
| RecordTypes.CollectFirstFailure | SimpleBankingService/IO/TransactionsParser.cs:30-36 | the first bad line's error is the read's error, whatever follows |
| RecordTypes.CollectFailed | SimpleBankingService/IO/TransactionsParser.cs:30-36 | a failed read names the error of a bad line before which every line was good |
| RecordTypes.CollectStaysFailed | SimpleBankingService/IO/TransactionsParser.cs:30-36 | lines after a failure change nothing |
| AccountsParser.ValidateAndConvertRecord | SimpleBankingService/IO/AccountsParser.cs:42-55 | succeeds iff the number text parses and the balance is ≥ 0, yielding the parsed number (≥ 1) and the balance; an unparsable number is reported first, with its line and raw text; a negative balance is reported only after the number parsed |
| AccountsParser.CollectAccounts | SimpleBankingService/IO/AccountsParser.cs:29-39 | the dictionary built line by line, stopping at the first bad line or repeated number; on success, one entry per line |
| AccountsParser.CollectAccountsSucceeded | SimpleBankingService/IO/AccountsParser.cs:29-39 | a successful read had only good lines with pairwise distinct numbers, maps each to its own balance, and holds no other key |
| AccountsParser.CollectAccountsFailed | SimpleBankingService/IO/AccountsParser.cs:29-39 | a failed read stopped at a line after good ones: that line was bad and its error is reported, or it repeated an earlier number and is reported as a duplicate on its own line |
| AccountsParser.ParseAccounts | SimpleBankingService/IO/AccountsParser.cs:29-54 | on success, one entry per record, every key ≥ 1 and every balance ≥ 0 |
| AccountsParser.ParsedAccountsMatchRecords | SimpleBankingService/IO/AccountsParser.cs:29-39 | on success every record was valid, the parsed numbers are pairwise distinct, and each maps to its own record's balance |
| AccountsParser.ParseAccountsFirstFailure | SimpleBankingService/IO/AccountsParser.cs:29-36 | on failure the line is in range, the records before it parse, and that record is invalid (its own error) or repeats an earlier number (a duplicate error on its line) |
| AccountsParser.ParseFromRecords | SimpleBankingService/IO/AccountsParser.cs:25-39 | the loop fails exactly when `ParseAccounts` does, with the same error; on success the new `Account` objects are keyed by their own numbers, carry the parsed balances, are valid and distinct, and are freshly allocated |
| AccountsParser.EmptyYieldsNoAccounts | SimpleBankingService.UnitTests/IO/AccountsParserTests.cs:40-46 | no records give an empty dictionary |
| AccountsParser.ThirdRepeatsFirst | SimpleBankingService/IO/AccountsParser.cs:33-36 | three valid records whose third number repeats the first fail on line 3 as a duplicate of that number |
| AccountsParser.DuplicateOnLineThree | SimpleBankingService.UnitTests/IO/AccountsParserTests.cs:66-74 | records "1", "2" and then "0000000000000001", chosen to match the test's expected error (the test's CSV file is not part of this model), fail on line 3 as a duplicate of account 1 |
| TransactionsParser.ValidateAndConvertTransaction | SimpleBankingService/IO/TransactionsParser.cs:39-68 | succeeds iff both numbers parse and the transfer is between two different known accounts with amount ≥ 0, yielding that transaction (which the constructor accepts); errors carry the line |
| TransactionsParser.ValidationOrder | SimpleBankingService/IO/TransactionsParser.cs:41-64 | the checks run in order (sender format, receiver format, same account, unknown sender, unknown receiver, negative amount), and each error is reported exactly when every earlier check passed |
| TransactionsParser.ParseTransactions | SimpleBankingService/IO/TransactionsParser.cs:26-36 | on success, one transaction per record, each between two different known accounts with amount ≥ 0 |
| TransactionsParser.ParsedTransactionsMatchRecords | SimpleBankingService/IO/TransactionsParser.cs:30-36 | succeeds iff every record converts, and then the list holds each record's transaction in file order |
| TransactionsParser.ParseTransactionsFirstFailure | SimpleBankingService/IO/TransactionsParser.cs:30-35 | on failure the line is in range, every earlier record converts, and the error is that record's |
| TransactionsParser.ParseTransactionsStopsAtFirstFailure | SimpleBankingService/IO/TransactionsParser.cs:30-35 | the first record that fails decides the error, whatever later records hold |
| TransactionsParser.ParseFromRecords | SimpleBankingService/IO/TransactionsParser.cs:26-36 | the append loop returns exactly `ParseTransactions` of the records |
| TransactionsParser.EmptyYieldsNoTransactions | SimpleBankingService.UnitTests/IO/TransactionsParserTests.cs:36-43 | no records give an empty list |
| TransactionsParser.SameAccountOnLineTwo | SimpleBankingService.UnitTests/IO/TransactionsParserTests.cs:98-107 | a record "0000000000000004" to "4" on line 2, after a line 1 that converts, chosen to match the test's expected error (the test's CSV file is not part of this model), is rejected as the same account |
| TransactionsParser.UnknownSenderOnLineOne | SimpleBankingService/IO/TransactionsParser.cs:53-64 | an unknown sender is reported before a negative amount is looked at |
| ProcessTransactions.ParsedTransactionsNeverMissAccounts | SimpleBankingService/ProcessTransactions.cs:21-26 | transactions parsed against the key set of an accounts dictionary can make the processor fail only on a balance, never on a missing key |
| ProcessTransactions.Process | SimpleBankingService/ProcessTransactions.cs:19-26 | the first failing stage decides the error; once both files parse, the run succeeds exactly when `Run` of the parsed transactions from the parsed balances completes, fails with `Run`'s error otherwise, and leaves the accounts (the parsed keys, valid and keyed by their numbers) holding `Run`'s balances either way; a missing key is never among the errors |
| ProcessTransactions.StartingBalancesAreCurrent | SimpleBankingService/ProcessTransactions.cs:21-26 | right after parsing, each account object's balance is the one parsed for its number |
| ProcessTransactions.CompletedRunConservesTotal | SimpleBankingService/ProcessTransactions.cs:21-26 | a completed run from the parsed balances keeps every balance non-negative and the total unchanged |

## Left out

- CSV decoding is not modelled: CsvHelper configuration, trimming of fields, stream handling and async reads. Records
  arrive as already-decoded values.
- A `TypeConverterException` for a non-numeric balance or amount comes from CsvHelper, and a `FileNotFoundException`
  from the filesystem. Neither is raised by this code.
- `AccountsWriter` and writing the output file are not part of this model. `Process` stops where `RunAsync` would write
  the accounts.
- Console logging in `ProcessTransactions` is not modelled. `Program.cs` is not part of this model: it is
  command-line wiring.
- `ToString` of `Account` and `Transaction`, and the exact text of exception messages, are not modelled. Errors are
  datatypes that carry the message's fields.
- `decimal` scale, rounding and the 96-bit representation are not modelled. Values are exact reals with the
  symbolic maximum `MAX_DEC`.
- AccountNumbers.ParseLong: `long.TryParse` uses the current culture; the model assumes one whose signs are '+' and '-'.
  Surrounding whitespace and trailing NUL characters, which `long.TryParse` also accepts, are not modelled.
- AccountNumbers.AccountNumber.TryParse: the `out` parameter's default of account 0 on failure is not modelled; a
  failure is `None`.
- AccountsParser.ValidateAndConvertRecord: returns the parsed number and balance instead of a new `Account`. The
  parse loop `ParseFromRecords` allocates the `Account`, and the balance is already known to be non-negative there, so
  the constructor's range check cannot fire.
- Accounts.Account.constructor: it requires a non-negative balance. The throwing behaviour of the C# constructor is
  `Accounts.Account.Create`.
- AccountsParser.ParseAccounts: the specification validates every record and then folds over the results. Validation
  is pure, so this gives the same outcome as the loop, which validates one line at a time and stops. `ParseFromRecords`
  is the loop.
- TransactionsParser.ParseFromRecords: the known-accounts `HashSet` is a value parameter (`set`), so its not being
  modified holds by construction.
- TransactionProcessor.ApplyTransactionsToAccounts: the dictionary is a `map` value, so the key set cannot change. Only
  the `Account` objects it holds are modified.
