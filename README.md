# Fine-grained bank, modelled in Dafny

A model of the fine-grained bank of `ru.ifmo.mt.fgb`. The bank holds a fixed number of
accounts, indexed 0..n-1, and each balance lies between 0 and `MAX_AMOUNT`
(10^15). It supports `getNumberOfAccounts`, `getAmount`, `getTotalAmount`, `deposit`,
`withdraw` and `transfer`. Every account has its own lock. An operation that needs several
locks takes them in ascending index order and releases them in reverse.

The project has these modules:

- `Bank` (`bank.dfy`) holds the documented contract of the `Bank` interface. It has the
  bound, the exception kinds (`IllegalArgument`, `IndexOutOfBounds`,
  `IllegalState(Overflow | Underflow)`) and one function per operation over the sequence of
  balances. Each function returns the balances afterwards and the caller's result or error.
  Its lemmas cover:
  - which error comes first;
  - that a failure changes nothing;
  - that the per-account bound is kept;
  - that a transfer keeps the total;
  - that after any sequence of calls the total equals the net amount deposited.
- `Locking` (`locking.dfy`) is the lock discipline, checked against a ghost log of lock and
  unlock events. A lock may be taken only above every lock already held, and only the most
  recently taken lock may be released. It also defines the event sequence each operation
  produces and proves that each one follows the discipline.
- `FineGrainedBank` (`bank_impl.dfy`) is class `BankImpl`. The accounts are an array that
  the methods update in place, and two ghost fields record the lock log and the stack of
  locks held. Every read or write of an account requires that account's lock to be held.
  Each method's postcondition ties its result and the new balances to the matching `Bank`
  function. It also states the exact lock events the method appends to the log.
- `AsWritten` (`as_written.dfy`) gives the balance updates as the source writes them, on a
  32-bit `int` field (see Findings).
- `JavaInts` (`java_ints.dfy`) holds Java's `int` and `long`, long wrap-around and the
  `(int)` narrowing.

The source keeps `Account.amount` in an `int`. The overflow tests compute in `long`, but
`+=` narrows the result back to 32 bits. The class `BankImpl` keeps each balance as a
`long`, the value the interface and its bound describe. Module `AsWritten` models the
`int` field exactly, including the narrowing. Its lemmas prove that it agrees with the
`long` model on a non-negative field whenever the new balance fits in an `int`, and they
give inputs where it does not, including a withdrawal from a field the wrap made negative.

Java `int` and `long` parameters are the newtypes `int32` and `int64`. The tests inside
`deposit`, `withdraw` and `transfer` are computed in `int64`, so the verifier also proves
that those `long` expressions never overflow on a valid bank. Results that Java returns as
`long` are returned as unbounded `int` values. The `Bank` functions prove that the
per-account results (getAmount, deposit, withdraw) lie within 0..MAX_AMOUNT and the total
within 0..n × MAX_AMOUNT.

## Model

| member | source | states |
|---|---|---|
| `Bank.Total` | src/main/java/ru/ifmo/mt/fgb/Bank.java:28-33 | the total of a bank whose accounts are all within bounds is between 0 and n × MAX_AMOUNT |
| `Bank.GetAmount` | src/main/java/ru/ifmo/mt/fgb/Bank.java:19-26 | succeeds exactly for indices 0..n-1; any other index is IndexOutOfBounds; the balance returned is within bounds |
| `Bank.Deposit` | src/main/java/ru/ifmo/mt/fgb/BankImpl.java:70-83 | a failure leaves every balance unchanged; success changes only the indexed account, to the value returned; the per-account bound is kept |
| `Bank.Withdraw` | src/main/java/ru/ifmo/mt/fgb/BankImpl.java:89-102 | a failure leaves every balance unchanged; success changes only the indexed account, to the value returned; the per-account bound is kept |
| `Bank.Transfer` | src/main/java/ru/ifmo/mt/fgb/BankImpl.java:108-139 | a failure leaves every balance unchanged; success needs two distinct valid indices and leaves every other account unchanged; the per-account bound is kept |
| `Bank.NewBankIsEmpty` | src/main/java/ru/ifmo/mt/fgb/BankImpl.java:22-27 | a new bank has n accounts, each reads 0, and its total is 0 |
| `Bank.DepositContract` | src/main/java/ru/ifmo/mt/fgb/Bank.java:35-45 | IllegalArgument iff amount <= 0; then IndexOutOfBounds iff the index is bad; then Overflow iff balance + amount > MAX_AMOUNT; otherwise returns balance + amount; never Underflow |
| `Bank.WithdrawContract` | src/main/java/ru/ifmo/mt/fgb/Bank.java:47-57 | IllegalArgument iff amount <= 0; then IndexOutOfBounds iff the index is bad; then Underflow iff balance < amount; otherwise returns balance - amount >= 0; never Overflow |
| `Bank.TransferContract` | src/main/java/ru/ifmo/mt/fgb/Bank.java:59-69 | IllegalArgument iff amount <= 0 or the indices are equal, before any index is used; then IndexOutOfBounds; then Underflow iff amount > source balance, ahead of Overflow iff target + amount > MAX_AMOUNT; on success the source loses and the target gains amount |
| `Bank.TransferHugeAmountIsUnderflow` | src/main/java/ru/ifmo/mt/fgb/BankImpl.java:124-127 | on a valid bank an amount above MAX_AMOUNT is always reported as Underflow, so the `amount > MAX_AMOUNT` test never decides the outcome |
| `Bank.DepositRaisesTotal` | src/main/java/ru/ifmo/mt/fgb/BankImpl.java:76-79 | a successful deposit raises the total by exactly the amount |
| `Bank.WithdrawLowersTotal` | src/main/java/ru/ifmo/mt/fgb/BankImpl.java:95-98 | a successful withdrawal lowers the total by exactly the amount |
| `Bank.TransferKeepsTotal` | src/main/java/ru/ifmo/mt/fgb/BankImpl.java:124-129 | a transfer, successful or not, leaves the total unchanged |
| `Bank.TotalMove` | src/main/java/ru/ifmo/mt/fgb/BankImpl.java:128-129 | taking an amount from one account and adding it to another, distinct, account leaves the total unchanged |
| `Bank.ReplayKeepsValid` | src/main/java/ru/ifmo/mt/fgb/Bank.java:7-10 | any sequence of deposits, withdrawals and transfers keeps the number of accounts and keeps every balance within 0..MAX_AMOUNT |
| `Bank.ReplayTotal` | src/main/java/ru/ifmo/mt/fgb/Bank.java:28-33 | after any sequence of calls the total has changed by exactly the successful deposits minus the successful withdrawals |
| `Bank.TotalIsAmountDeposited` | src/main/java/ru/ifmo/mt/fgb/Bank.java:28-33 | the total of a bank created empty is the net amount deposited into it since |
| `Locking.AcquireAscending` | src/main/java/ru/ifmo/mt/fgb/BankImpl.java:55-58 | the first loop of getTotalAmount locks account k as its k-th event, for k = 0..n-1 |
| `Locking.ReleaseDescending` | src/main/java/ru/ifmo/mt/fgb/BankImpl.java:60-62 | the second loop of getTotalAmount unlocks account n-1-k as its k-th event |
| `Locking.SingleEvents` | src/main/java/ru/ifmo/mt/fgb/BankImpl.java:42-44 | the one lock/unlock pair of getAmount, deposit and withdraw follows the discipline, releasing every lock it takes, and acquires and releases that account exactly once and no other account (also lines 74-82 and 93-101) |
| `Locking.PairEvents` | src/main/java/ru/ifmo/mt/fgb/BankImpl.java:116-122 | transfer acquires both accounts, the lower index first, then releases them in reverse order (the unlocks are at lines 131-137) |
| `Locking.PairDisciplined` | src/main/java/ru/ifmo/mt/fgb/BankImpl.java:115-137 | transfer's lower-then-higher locking and higher-then-lower unlocking follows the ascending order and reverse release |
| `Locking.AcquireAscendingHoldsAll` | src/main/java/ru/ifmo/mt/fgb/BankImpl.java:55-58 | locking 0..n-1 in ascending order follows the discipline and ends with all n locks held |
| `Locking.ReleaseDescendingFreesAll` | src/main/java/ru/ifmo/mt/fgb/BankImpl.java:60-62 | unlocking n-1..0 while holding 0..n-1 follows the discipline and ends with no lock held |
| `Locking.TotalDisciplined` | src/main/java/ru/ifmo/mt/fgb/BankImpl.java:55-62 | getTotalAmount's whole event sequence follows the discipline and releases every lock taken |
| `Locking.DisciplinedReleasesAll` | src/main/java/ru/ifmo/mt/fgb/BankImpl.java:42-44 | general: in any log that follows the discipline, which every operation's lock and unlock calls do (also lines 55-62, 74-82, 93-101, 115-137), each lock is released exactly as many times as it is acquired |
| `Locking.RunBalances` | src/main/java/ru/ifmo/mt/fgb/BankImpl.java:159-168 | along any run of the protocol, locks held before plus locks acquired equal locks held after plus locks released, lock by lock |
| `Locking.DisciplinedConcat` | src/main/java/ru/ifmo/mt/fgb/BankImpl.java:11-139 | a helper for joining whole-operation logs: the operations of the bank run one after another keep the discipline |
| `FineGrainedBank.BankImpl.constructor` | src/main/java/ru/ifmo/mt/fgb/BankImpl.java:22-27 | the bank has exactly n accounts, all holding 0, a fresh array, an empty lock log, and satisfies the invariant |
| `FineGrainedBank.BankImpl.Lock` | src/main/java/ru/ifmo/mt/fgb/BankImpl.java:159-161 | appends one acquire event and pushes the lock; callable only above every lock held |
| `FineGrainedBank.BankImpl.Unlock` | src/main/java/ru/ifmo/mt/fgb/BankImpl.java:166-168 | appends one release event and pops the lock; callable only on the most recently acquired lock |
| `FineGrainedBank.BankImpl.Load` | src/main/java/ru/ifmo/mt/fgb/BankImpl.java:154 | reads an account's amount, callable only while its lock is held |
| `FineGrainedBank.BankImpl.Store` | src/main/java/ru/ifmo/mt/fgb/BankImpl.java:154 | writes an account's amount, changing no other account, callable only while its lock is held |
| `FineGrainedBank.BankImpl.GetNumberOfAccounts` | src/main/java/ru/ifmo/mt/fgb/BankImpl.java:33-35 | returns the number of accounts, which no operation changes (the array is a constant field) |
| `FineGrainedBank.BankImpl.GetAmount` | src/main/java/ru/ifmo/mt/fgb/BankImpl.java:41-46 | returns what `Bank.GetAmount` specifies and changes no balance; one lock/unlock pair on success, no lock event for a bad index |
| `FineGrainedBank.BankImpl.GetTotalAmount` | src/main/java/ru/ifmo/mt/fgb/BankImpl.java:52-64 | returns the sum of all balances, read while locks 0..i are held, and changes no balance; appends exactly locks 0..n-1 ascending, then unlocks n-1..0 |
| `FineGrainedBank.BankImpl.SumLockingAscending` | src/main/java/ru/ifmo/mt/fgb/BankImpl.java:54-58 | locks 0..n-1 in ascending order, reading each account only once its lock is held; returns the total of all balances and ends holding every lock |
| `FineGrainedBank.BankImpl.UnlockDescending` | src/main/java/ru/ifmo/mt/fgb/BankImpl.java:60-62 | from holding 0..n-1, appends unlocks n-1..0 and leaves no lock held |
| `FineGrainedBank.BankImpl.Deposit` | src/main/java/ru/ifmo/mt/fgb/BankImpl.java:70-83 | new balances and result are exactly those of `Bank.Deposit`; the invariant is kept; no lock event when amount <= 0 or the index is bad, otherwise exactly one lock/unlock pair on both the success and the overflow path |
| `FineGrainedBank.BankImpl.DepositLocked` | src/main/java/ru/ifmo/mt/fgb/BankImpl.java:75-79 | with the account's lock held, the long overflow test and the update give exactly the balances and result of `Bank.Deposit` |
| `FineGrainedBank.BankImpl.Withdraw` | src/main/java/ru/ifmo/mt/fgb/BankImpl.java:89-102 | new balances and result are exactly those of `Bank.Withdraw`; the invariant is kept; no lock event before the arguments pass, otherwise exactly one lock/unlock pair on both paths |
| `FineGrainedBank.BankImpl.WithdrawLocked` | src/main/java/ru/ifmo/mt/fgb/BankImpl.java:94-98 | with the account's lock held, the underflow test and the update give exactly the balances and result of `Bank.Withdraw` |
| `FineGrainedBank.BankImpl.TransferLocked` | src/main/java/ru/ifmo/mt/fgb/BankImpl.java:123-129 | with both locks held, the checks and writes produce exactly the balances and result of `Bank.Transfer` |
| `FineGrainedBank.BankImpl.Transfer` | src/main/java/ru/ifmo/mt/fgb/BankImpl.java:108-139 | new balances and result are exactly those of `Bank.Transfer`; the invariant is kept; no lock event on argument or index errors, otherwise lock lower, lock higher, unlock higher, unlock lower, on every exit path |
| `FineGrainedBank.BankImpl.LockPair` | src/main/java/ru/ifmo/mt/fgb/BankImpl.java:115-122 | whichever index is passed first, locks the lower index and then the higher one |
| `FineGrainedBank.BankImpl.UnlockPair` | src/main/java/ru/ifmo/mt/fgb/BankImpl.java:130-137 | from holding the lower and the higher lock, unlocks the higher and then the lower, leaving no lock held |
| `AsWritten.DepositAsWritten` | src/main/java/ru/ifmo/mt/fgb/BankImpl.java:76-79 | succeeds only for a positive amount; when the sum fits in an int the field becomes the old value plus the amount; the only errors are IllegalArgument and Overflow |
| `AsWritten.WithdrawAsWritten` | src/main/java/ru/ifmo/mt/fgb/BankImpl.java:95-98 | succeeds only for a positive amount; when the difference fits in an int the field becomes the old value minus the amount; the only errors are IllegalArgument and Underflow |
| `AsWritten.TransferAsWritten` | src/main/java/ru/ifmo/mt/fgb/BankImpl.java:124-129 | succeeds only when 0 < amount <= the source field; the source field loses exactly the amount; the target field gains it when the sum fits in an int |
| `AsWritten.Widen` | src/main/java/ru/ifmo/mt/fgb/BankImpl.java:79 | `return account.amount` widens the int field to the long result without loss: the outcome is kept, the value fits a long, and narrowing it back with `(int)` gives the field again (also line 98) |
| `JavaInts.WrapLong` | src/main/java/ru/ifmo/mt/fgb/BankImpl.java:76 | a long expression keeps the exact value modulo 2^64, and is exact whenever the value fits in a long (also lines 95 and 126) |
| `JavaInts.Narrow` | src/main/java/ru/ifmo/mt/fgb/BankImpl.java:78 | the implicit `(int)` cast of `+=` keeps the value modulo 2^32, and is exact whenever it fits in an int (also lines 97, 128 and 129) |
| `AsWritten.DepositAsWrittenAgrees` | src/main/java/ru/ifmo/mt/fgb/BankImpl.java:76-79 | on a non-negative field the int deposit fails exactly as the long one does, and returns the same balance iff that balance fits in an int |
| `AsWritten.WithdrawAsWrittenAgrees` | src/main/java/ru/ifmo/mt/fgb/BankImpl.java:95-98 | on a non-negative field the int withdrawal always agrees with the long one |
| `AsWritten.TransferAsWrittenAgrees` | src/main/java/ru/ifmo/mt/fgb/BankImpl.java:124-129 | on non-negative fields the int transfer fails exactly as the long one does; the source field is always right, and the target field is right iff it fits in an int |
| `AsWritten.DepositWrapsNegative` | src/main/java/ru/ifmo/mt/fgb/BankImpl.java:76-79 | depositing 2^31 into an empty account leaves and returns -2^31; the intended result is 2^31 |
| `AsWritten.TransferBreaksTotal` | src/main/java/ru/ifmo/mt/fgb/BankImpl.java:124-129 | transferring 1 from an account holding 1 to one holding 2^31-1 changes the pair's total from 2^31 to -2^31 |
| `AsWritten.WithdrawPassesOnNegativeField` | src/main/java/ru/ifmo/mt/fgb/BankImpl.java:95-98 | after deposit(i, 2^32 - 2) on an empty account leaves -2, withdraw(i, Long.MAX_VALUE) passes the wrapped underflow test and returns -1; with a long field the account holds 2^32 - 2 and the same call is an Underflow |

## Left out

- Threads, the real `ReentrantLock` behaviour, interleavings, deadlock freedom, and the consistency of `getTotalAmount`'s snapshot under concurrent callers are not modelled. These need a concurrent semantics. What is kept is the order of lock and unlock calls (ascending acquisition, reverse release, each lock released once) as a ghost log, plus the requirement that every account access happens under that account's lock.
- Reentrancy and the identity of each account's `Lock` object are not modelled; an account's lock is named by its index.
- Fairness and starvation are not modelled. They are properties of the JDK lock.
- Exception messages are not modelled, only the exception kind. `IllegalStateException` carries its cause, Overflow or Underflow.
- `new BankImpl(n)` with a negative `n` throws `NegativeArraySizeException` in Java. The constructor instead requires `0 <= n`.
- FineGrainedBank.BankImpl.GetTotalAmount: the sum is an unbounded integer. Java adds into a `long`. With the `int` field as written that sum can never overflow. With the `long` balances used here it could overflow once more than 9223 accounts each hold MAX_AMOUNT.
- FineGrainedBank.BankImpl.Deposit, FineGrainedBank.BankImpl.Withdraw, FineGrainedBank.BankImpl.Transfer: the balances are `long` values, not the source's `int` field. The `int` behaviour is modelled separately in `AsWritten` (see Findings).

## Findings

| source | as written | input that shows it | evidently intended | confidence | as-written member | corrected member |
|---|---|---|---|---|---|---|
| src/main/java/ru/ifmo/mt/fgb/BankImpl.java:76-79 | `account.amount += amount` narrows the `long` sum into the `int` field after an overflow test against MAX_AMOUNT = 10^15 | `deposit(i, 2147483648)` on an account holding 0: the test passes, and the account is left holding -2147483648, which is also returned | the account holds, and the call returns, 2147483648 (the field is a `long`) | high; not executed | `AsWritten.DepositWrapsNegative` | `Bank.Deposit` |
| src/main/java/ru/ifmo/mt/fgb/BankImpl.java:124-129 | `to.amount += amount` narrows the target's new balance into an `int` | `transfer(0, 1, 1)` with balances [1, 2147483647]: the result is [0, -2147483648], and the total drops from 2147483648 to -2147483648 | the result is [0, 2147483648] and the total is unchanged | high; not executed | `AsWritten.TransferBreaksTotal` | `Bank.TransferKeepsTotal` |
| src/main/java/ru/ifmo/mt/fgb/BankImpl.java:95-98 | `account.amount - amount < 0` is computed in `long`, so on a field made negative by the deposit wrap, a huge amount makes the difference wrap to a positive value and the test passes | `deposit(i, 4294967294)` on an empty account leaves -2; `withdraw(i, 9223372036854775807)` then passes the test and leaves and returns -1 | the field is a `long` holding 4294967294, and the withdrawal is an Underflow | high; not executed | `AsWritten.WithdrawPassesOnNegativeField` | `Bank.WithdrawContract` |
