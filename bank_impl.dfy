/**
 * The fine-grained bank: a fixed array of accounts, each guarded by its own lock.
 *
 * Threads are not modelled. What is kept of the locking is a ghost log of every lock and
 * unlock call, checked against the protocol of module Locking, and the ghost stack of
 * locks held, which every read and write of an account must be inside.
 */
module FineGrainedBank {
  import opened JavaInts
  import opened Bank
  import opened Locking

  class BankImpl {
    /**
     * `accounts[i]` is the `amount` field of account i, modelled as a Java `long`; the
     * source's field is an `int` (see module AsWritten).
     */
    const accounts: array<int>

    /** Every `lock()` and `unlock()` call on an account so far, in order. */
    ghost var log: seq<Event>

    /** The locks the running operation holds, in acquisition order. */
    ghost var held: seq<int>

    /** The balances of accounts 0..n-1. */
    ghost function Balances(): seq<int>
      reads accounts
    {
      accounts[..]
    }

    /**
     * Between operations: the number of accounts fits a Java int, every balance is within
     * 0..MAX_AMOUNT, no lock is held and every lock ever taken was taken and released by
     * the protocol.
     */
    ghost predicate Valid()
      reads this, accounts
    {
      accounts.Length <= INT32_MAX && ValidBalances(accounts[..]) && held == [] && Disciplined(log)
    }

    /** `new BankImpl(n)`: n accounts, each created holding 0. */
    constructor (n: int32)
      requires 0 <= n
      ensures Valid() && fresh(accounts)
      ensures Balances() == Zeros(n as int)
      ensures log == []
    {
      var a := new int[n];
      var i := 0;
      while i < n as int
        invariant 0 <= i <= n as int
        invariant forall k :: 0 <= k < i ==> a[k] == 0
      {
        a[i] := 0;
        i := i + 1;
      }
      accounts := a;
      log, held := [], [];
      assert a[..] == Zeros(n as int);
      NewBankIsEmpty(n as int);
    }

    /** `Account.lock()` on account i: allowed only above every lock already held. */
    ghost method Lock(i: int)
      requires MayAcquire(held, i)
      modifies this
      ensures log == old(log) + [Acquire(i)] && held == old(held) + [i]
    {
      log := log + [Acquire(i)];
      held := held + [i];
    }

    /** `Account.unlock()` on account i: allowed only on the most recently acquired lock. */
    ghost method Unlock(i: int)
      requires held != [] && held[|held| - 1] == i
      modifies this
      ensures log == old(log) + [Release(i)] && held == old(held)[..|old(held)| - 1]
    {
      log := log + [Release(i)];
      held := held[..|held| - 1];
    }

    /** Reads `amount` of account i, which must be locked. */
    method Load(i: int) returns (v: int)
      requires 0 <= i < accounts.Length && i in held
      ensures v == accounts[i]
    {
      v := accounts[i];
    }

    /** Writes `amount` of account i, which must be locked. */
    method Store(i: int, v: int)
      requires 0 <= i < accounts.Length && i in held
      modifies accounts
      ensures accounts[..] == old(accounts[..])[i := v]
    {
      accounts[i] := v;
    }

    /** `getNumberOfAccounts()`. */
    method GetNumberOfAccounts() returns (n: int32)
      requires Valid()
      ensures n as int == |Balances()|
    {
      n := accounts.Length as int32;
    }

    /** `getAmount(index)`: the balance, read under the account's lock. */
    method GetAmount(index: int32) returns (r: Result<int>)
      requires Valid()
      modifies this
      ensures Valid() && Balances() == old(Balances())
      ensures r == Bank.GetAmount(Balances(), index as int)
      ensures log == old(log) + (if r.Ok? then SingleEvents(index as int) else [])
    {
      if index < 0 || index as int >= accounts.Length {
        return Err(IndexOutOfBounds);
      }
      var i := index as int;
      Lock(i);
      var amount := Load(i);
      Unlock(i);
      r := Ok(amount);
      assert log == old(log) + SingleEvents(i);
      DisciplinedConcat(old(log), SingleEvents(i));
    }

    /**
     * `getTotalAmount()`: locks accounts 0..n-1 in ascending order, adding each balance as
     * its lock is taken: each balance is read under its own lock, and every lock stays held
     * until the sum is complete; then unlocks them from n-1 down to 0.
     */
    method GetTotalAmount() returns (sum: int)
      requires Valid()
      modifies this
      ensures Valid() && Balances() == old(Balances())
      ensures sum == Total(Balances())
      ensures log == old(log) + AcquireAscending(accounts.Length) + ReleaseDescending(accounts.Length)
    {
      sum := SumLockingAscending();
      UnlockDescending(accounts.Length);
      assert log == old(log) + (AcquireAscending(accounts.Length) + ReleaseDescending(accounts.Length));
      TotalDisciplined(accounts.Length);
      DisciplinedConcat(old(log), AcquireAscending(accounts.Length) + ReleaseDescending(accounts.Length));
    }

    /**
     * The first loop of `getTotalAmount()`: locks each account in ascending order and adds
     * its amount once its lock is held. Ends holding every lock.
     */
    method SumLockingAscending() returns (sum: int)
      requires held == []
      modifies this
      ensures held == Prefix(accounts.Length)
      ensures log == old(log) + AcquireAscending(accounts.Length)
      ensures sum == Total(accounts[..])
    {
      var n := accounts.Length;
      sum := 0;
      var i := 0;
      while i < n
        invariant 0 <= i <= n
        invariant held == Prefix(i)
        invariant log == old(log) + AcquireAscending(i)
        invariant sum == Total(accounts[..i])
      {
        assert MayAcquire(Prefix(i), i);
        Lock(i);
        var amount := Load(i);
        assert accounts[..i + 1][..i] == accounts[..i];
        sum := sum + amount;
        i := i + 1;
      }
      assert accounts[..n] == accounts[..];
    }

    /** The second loop of `getTotalAmount()`: unlocks n-1, ..., 0 while holding 0..n-1. */
    ghost method UnlockDescending(n: nat)
      requires held == Prefix(n)
      modifies this
      ensures held == []
      ensures log == old(log) + ReleaseDescending(n)
    {
      var i := n;
      while i > 0
        invariant 0 <= i <= n
        invariant held == Prefix(i)
        invariant log + ReleaseDescending(i) == old(log) + ReleaseDescending(n)
      {
        ghost var before := log;
        Unlock(i - 1);
        assert held == (Prefix(i - 1) + [i - 1])[..i - 1];
        assert log + ReleaseDescending(i - 1) == before + ([Release(i - 1)] + ReleaseDescending(i - 1));
        i := i - 1;
      }
      assert log + [] == log;
    }

    /** `deposit(index, amount)`: returns the resulting amount in the account. */
    method Deposit(index: int32, amount: int64) returns (r: Result<int>)
      requires Valid()
      modifies this, accounts
      ensures Valid()
      ensures var spec := Bank.Deposit(old(Balances()), index as int, amount as int);
        Balances() == spec.after && r == spec.result
      ensures if amount <= 0 || !ValidIndex(old(Balances()), index as int) then log == old(log)
              else log == old(log) + SingleEvents(index as int)
    {
      if amount <= 0 {
        return Err(IllegalArgument);
      }
      if index < 0 || index as int >= accounts.Length {
        return Err(IndexOutOfBounds);
      }
      var i := index as int;
      Lock(i);
      r := DepositLocked(i, amount);
      Unlock(i);
      assert log == old(log) + SingleEvents(i);
      DisciplinedConcat(old(log), SingleEvents(i));
    }

    /** The `try` block of `deposit`, run with the account's lock held. */
    method DepositLocked(i: int, amount: int64) returns (r: Result<int>)
      requires ValidBalances(accounts[..]) && amount > 0
      requires 0 <= i < accounts.Length && i in held
      modifies accounts
      ensures var spec := Bank.Deposit(old(accounts[..]), i, amount as int);
        accounts[..] == spec.after && r == spec.result
    {
      var current := Load(i);
      // the tests are in long arithmetic; the first one keeps the sum within a long
      if amount > MAX_AMOUNT as int64 || current as int64 + amount > MAX_AMOUNT as int64 {
        r := Err(IllegalState(Overflow));
      } else {
        Store(i, current + amount as int);
        var updated := Load(i);
        r := Ok(updated);
      }
    }

    /** `withdraw(index, amount)`: returns the resulting amount in the account. */
    method Withdraw(index: int32, amount: int64) returns (r: Result<int>)
      requires Valid()
      modifies this, accounts
      ensures Valid()
      ensures var spec := Bank.Withdraw(old(Balances()), index as int, amount as int);
        Balances() == spec.after && r == spec.result
      ensures if amount <= 0 || !ValidIndex(old(Balances()), index as int) then log == old(log)
              else log == old(log) + SingleEvents(index as int)
    {
      if amount <= 0 {
        return Err(IllegalArgument);
      }
      if index < 0 || index as int >= accounts.Length {
        return Err(IndexOutOfBounds);
      }
      var i := index as int;
      Lock(i);
      r := WithdrawLocked(i, amount);
      Unlock(i);
      assert log == old(log) + SingleEvents(i);
      DisciplinedConcat(old(log), SingleEvents(i));
    }

    /** The `try` block of `withdraw`, run with the account's lock held. */
    method WithdrawLocked(i: int, amount: int64) returns (r: Result<int>)
      requires ValidBalances(accounts[..]) && amount > 0
      requires 0 <= i < accounts.Length && i in held
      modifies accounts
      ensures var spec := Bank.Withdraw(old(accounts[..]), i, amount as int);
        accounts[..] == spec.after && r == spec.result
    {
      var current := Load(i);
      if current as int64 - amount < 0 {
        r := Err(IllegalState(Underflow));
      } else {
        Store(i, current - amount as int);
        var updated := Load(i);
        r := Ok(updated);
      }
    }

    /**
     * The part of `transfer` that runs with both locks held: the underflow check, then the
     * overflow check, then both writes.
     */
    method TransferLocked(from: int, to: int, amount: int64) returns (r: Result<()>)
      requires ValidBalances(accounts[..]) && amount > 0 && from != to
      requires 0 <= from < accounts.Length && 0 <= to < accounts.Length && from in held && to in held
      modifies accounts
      ensures var spec := Bank.Transfer(old(accounts[..]), from, to, amount as int);
        accounts[..] == spec.after && r == spec.result
    {
      var fromAmount := Load(from);
      var toAmount := Load(to);
      if amount > fromAmount as int64 {
        r := Err(IllegalState(Underflow));
      } else if amount > MAX_AMOUNT as int64 || toAmount as int64 + amount > MAX_AMOUNT as int64 {
        r := Err(IllegalState(Overflow));
      } else {
        Store(from, fromAmount - amount as int);
        Store(to, toAmount + amount as int);
        r := Ok(());
      }
    }

    /**
     * `transfer(fromIndex, toIndex, amount)`: locks the lower-indexed account first, checks
     * and moves the amount with both locks held, and unlocks in the reverse order.
     */
    method Transfer(fromIndex: int32, toIndex: int32, amount: int64) returns (r: Result<()>)
      requires Valid()
      modifies this, accounts
      ensures Valid()
      ensures var spec := Bank.Transfer(old(Balances()), fromIndex as int, toIndex as int, amount as int);
        Balances() == spec.after && r == spec.result
      ensures if amount <= 0 || fromIndex == toIndex || !ValidIndex(old(Balances()), fromIndex as int)
                 || !ValidIndex(old(Balances()), toIndex as int)
              then log == old(log)
              else log == old(log) + PairEvents(fromIndex as int, toIndex as int)
    {
      if amount <= 0 {
        return Err(IllegalArgument);
      }
      if fromIndex == toIndex {
        return Err(IllegalArgument);
      }
      if fromIndex < 0 || fromIndex as int >= accounts.Length || toIndex < 0 || toIndex as int >= accounts.Length {
        return Err(IndexOutOfBounds);
      }
      var from, to := fromIndex as int, toIndex as int;
      var inOrder := from < to;
      LockPair(from, to, inOrder);
      r := TransferLocked(from, to, amount);
      UnlockPair(from, to, inOrder);
      assert PairEvents(from, to) == [Acquire(Lower(from, to)), Acquire(Higher(from, to))]
                                     + [Release(Higher(from, to)), Release(Lower(from, to))];
      assert log == old(log) + PairEvents(from, to);
      PairDisciplined(from, to);
      DisciplinedConcat(old(log), PairEvents(from, to));
    }

    /** The locking `if (flag)` of `transfer`: the lower-indexed account first. */
    ghost method LockPair(from: int, to: int, inOrder: bool)
      requires held == []
      requires from != to && inOrder == (from < to)
      modifies this
      ensures log == old(log) + [Acquire(Lower(from, to)), Acquire(Higher(from, to))]
      ensures held == [Lower(from, to), Higher(from, to)]
    {
      if inOrder {
        Lock(from);
        Lock(to);
      } else {
        Lock(to);
        Lock(from);
      }
    }

    /** The `finally` block of `transfer`: the higher-indexed account first. */
    ghost method UnlockPair(from: int, to: int, inOrder: bool)
      requires held == [Lower(from, to), Higher(from, to)]
      requires from != to && inOrder == (from < to)
      modifies this
      ensures log == old(log) + [Release(Higher(from, to)), Release(Lower(from, to))]
      ensures held == []
    {
      if inOrder {
        Unlock(to);
        Unlock(from);
      } else {
        Unlock(from);
        Unlock(to);
      }
    }
  }
}
