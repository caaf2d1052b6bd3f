/**
 * Accounts (Models/Account.cs): an immutable account number and a running
 * balance that never goes below zero, changed only through a guarded,
 * overflow-checked adjustment.
 */
module Accounts {
  import opened Wrappers
  import opened Numerics
  import opened AccountNumbers

  /** What a balance adjustment can fail with. */
  datatype BalanceError =
      /** InvalidOperationException: the account, the debit asked for, and the balance it had. */
    | InsufficientBalance(account: AccountNumber, requested: Decimal, current: Decimal)
      /** OverflowException from the checked addition. */
    | Overflow

  /** The guard: any non-negative amount may be applied; a negative one only if the balance covers it. */
  predicate CanApply(balance: real, amount: real) {
    amount >= 0.0 || balance >= -amount
  }

  /**
   * The outcome of applying `amount` to `balance` on account `number`: the guard
   * first, then the checked addition. A balance that starts non-negative stays so.
   */
  function ApplyAmount(number: AccountNumber, balance: Decimal, amount: Decimal): (r: Result<Decimal, BalanceError>)
    ensures balance >= 0.0 ==> (r.Failure? && r.error.InsufficientBalance? <==> balance + amount < 0.0)
    ensures r.Failure? && r.error.InsufficientBalance? ==> r.error == InsufficientBalance(number, -amount, balance)
    ensures r.Failure? && r.error.Overflow? <==> CanApply(balance, amount) && balance + amount > MAX_DEC
    ensures r.Success? ==> r.value == balance + amount
    ensures r.Success? && balance >= 0.0 ==> r.value >= 0.0
  {
    if !CanApply(balance, amount) then Failure(InsufficientBalance(number, -amount, balance))
    else if balance + amount > MAX_DEC then Failure(Overflow)
    else Success(balance + amount)
  }

  /** A debit followed by a credit of the same amount, when both succeed, leaves the balance where it was. */
  lemma DebitThenCreditRestores(number: AccountNumber, balance: Decimal, amount: Decimal)
    requires amount >= 0.0
    requires ApplyAmount(number, balance, -amount).Success?
    ensures ApplyAmount(number, ApplyAmount(number, balance, -amount).value, amount) == Success(balance)
  {
  }

  class Account {
    /** The account's identity; a `const`, so nothing can change it after construction. */
    const Number: AccountNumber

    /** Must always be >= 0. */
    var Balance: Decimal

    ghost predicate Valid()
      reads this
    {
      Balance >= 0.0
    }

    /** The constructor proper, for a balance already checked to be non-negative. */
    constructor (number: AccountNumber, balance: Decimal)
      requires balance >= 0.0
      ensures Valid()
      ensures Number == number && Balance == balance
    {
      Number := number;
      Balance := balance;
    }

    /** `new Account(number, balance)`, which throws ArgumentOutOfRangeException on a negative balance. */
    static method Create(number: AccountNumber, balance: Decimal) returns (r: Result<Account, ArgumentOutOfRange>)
      ensures r.Failure? <==> balance < 0.0
      ensures r.Failure? ==> r.error == ArgumentOutOfRange("balance")
      ensures r.Success? ==> fresh(r.value) && r.value.Valid()
      ensures r.Success? ==> r.value.Number == number && r.value.Balance == balance
    {
      if balance < 0.0 {
        return Failure(ArgumentOutOfRange("balance"));
      }
      var account := new Account(number, balance);
      return Success(account);
    }

    /** Whether `amount` may be applied: always when it is non-negative, otherwise when the result stays non-negative. */
    function CanApplyToBalance(amount: Decimal): (ok: bool)
      reads this
      ensures amount >= 0.0 ==> ok
      ensures Balance >= 0.0 ==> (ok <==> Balance + amount >= 0.0)
    {
      CanApply(Balance, amount)
    }

    /**
     * Adds `amount` to the balance and returns the new balance, or fails with
     * insufficient balance or overflow and leaves the balance as it was.
     */
    method ApplyToBalance(amount: Decimal) returns (r: Result<Decimal, BalanceError>)
      modifies this
      ensures old(Valid()) ==> Valid()
      ensures r == ApplyAmount(Number, old(Balance), amount)
      ensures Balance == if r.Success? then r.value else old(Balance)
    {
      if !CanApplyToBalance(amount) {
        return Failure(InsufficientBalance(Number, -amount, Balance));
      }
      if Balance + amount > MAX_DEC {
        return Failure(Overflow);
      }
      Balance := Balance + amount;
      return Success(Balance);
    }
  }
}
