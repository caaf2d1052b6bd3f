/** Transactions (Models/Transaction.cs): an immutable transfer of a non-negative amount between two account numbers. */
module Transactions {
  import opened Wrappers
  import opened Numerics
  import opened AccountNumbers

  datatype Transaction = Transaction(fromAccount: AccountNumber, toAccount: AccountNumber, amount: Decimal)
  {
    /** What the constructor guarantees of every transaction: its amount is not negative. */
    predicate Valid() {
      amount >= 0.0
    }

    /**
     * `new Transaction(from, to, amount)`: throws ArgumentOutOfRangeException on a
     * negative amount and checks nothing else, so zero amounts and from == to are accepted.
     */
    static function Create(fromAccount: AccountNumber, toAccount: AccountNumber, amount: Decimal): (r: Result<Transaction, ArgumentOutOfRange>)
      ensures r.Success? <==> amount >= 0.0
      ensures r.Success? ==> r.value.Valid()
      ensures r.Success? ==> r.value.fromAccount == fromAccount && r.value.toAccount == toAccount && r.value.amount == amount
      ensures r.Failure? ==> r.error == ArgumentOutOfRange("amount")
    {
      if amount < 0.0 then Failure(ArgumentOutOfRange("amount"))
      else Success(Transaction(fromAccount, toAccount, amount))
    }
  }

  /** The constructor does not reject a transfer from an account to itself. */
  lemma SameAccountAllowed(n: AccountNumber, amount: Decimal)
    requires amount >= 0.0
    ensures Transaction.Create(n, n, amount) == Success(Transaction(n, n, amount))
  {
  }
}
