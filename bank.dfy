/**
 * The documented contract of the `Bank` interface: the bound on an account, the
 * error kinds, and what each operation returns and leaves behind, stated over the
 * sequence of account balances (index 0..n-1).
 */
module Bank {

  /** The maximal amount that can be kept in one account. */
  const MAX_AMOUNT: int := 1_000_000_000_000_000

  /** The two reasons for an `IllegalStateException`. */
  datatype Cause = Overflow | Underflow

  /** The exception kinds the interface documents. */
  datatype Error =
    | IllegalArgument            // IllegalArgumentException
    | IndexOutOfBounds           // IndexOutOfBoundsException
    | IllegalState(cause: Cause) // IllegalStateException

  datatype Result<T> = Ok(value: T) | Err(error: Error)

  /** What one call leaves behind: the balances afterwards and what the caller receives. */
  datatype Outcome<T> = Outcome(after: seq<int>, result: Result<T>)

  predicate InBounds(b: int) {
    0 <= b <= MAX_AMOUNT
  }

  /** The per-account invariant, for every account of the bank. */
  predicate ValidBalances(s: seq<int>) {
    forall k :: 0 <= k < |s| ==> InBounds(s[k])
  }

  predicate ValidIndex(s: seq<int>, index: int) {
    0 <= index < |s|
  }

  /** The balances of a newly created bank of `n` accounts. */
  function Zeros(n: nat): seq<int> {
    seq(n, _ => 0)
  }

  /** The total amount held by the bank: the balances added up in index order. */
  function Total(s: seq<int>): (r: int)
    ensures ValidBalances(s) ==> 0 <= r <= |s| * MAX_AMOUNT
    decreases |s|
  {
    if s == [] then 0
    else
      var front := s[..|s| - 1];
      assert ValidBalances(s) ==> ValidBalances(front);
      Total(front) + s[|s| - 1]
  }

  /** `getAmount(index)`: the balance of one account. */
  function GetAmount(s: seq<int>, index: int): (r: Result<int>)
    ensures r.Ok? <==> ValidIndex(s, index)
    ensures r.Err? ==> r.error == IndexOutOfBounds
    ensures ValidBalances(s) && r.Ok? ==> InBounds(r.value)
  {
    if ValidIndex(s, index) then Ok(s[index]) else Err(IndexOutOfBounds)
  }

  /** `deposit(index, amount)`: returns the resulting amount in the account. */
  function Deposit(s: seq<int>, index: int, amount: int): (r: Outcome<int>)
    ensures r.result.Err? ==> r.after == s
    ensures r.result.Ok? ==> ValidIndex(s, index) && r.after == s[index := r.result.value]
    ensures ValidBalances(s) ==> ValidBalances(r.after)
  {
    if amount <= 0 then Outcome(s, Err(IllegalArgument))
    else if !ValidIndex(s, index) then Outcome(s, Err(IndexOutOfBounds))
    else if amount > MAX_AMOUNT || s[index] + amount > MAX_AMOUNT then Outcome(s, Err(IllegalState(Overflow)))
    else Outcome(s[index := s[index] + amount], Ok(s[index] + amount))
  }

  /** `withdraw(index, amount)`: returns the resulting amount in the account. */
  function Withdraw(s: seq<int>, index: int, amount: int): (r: Outcome<int>)
    ensures r.result.Err? ==> r.after == s
    ensures r.result.Ok? ==> ValidIndex(s, index) && r.after == s[index := r.result.value]
    ensures ValidBalances(s) ==> ValidBalances(r.after)
  {
    if amount <= 0 then Outcome(s, Err(IllegalArgument))
    else if !ValidIndex(s, index) then Outcome(s, Err(IndexOutOfBounds))
    else if s[index] - amount < 0 then Outcome(s, Err(IllegalState(Underflow)))
    else Outcome(s[index := s[index] - amount], Ok(s[index] - amount))
  }

  /** `transfer(fromIndex, toIndex, amount)`: moves `amount` from one account to another. */
  function Transfer(s: seq<int>, from: int, to: int, amount: int): (r: Outcome<()>)
    ensures r.result.Err? ==> r.after == s
    ensures r.result.Ok? ==> from != to && ValidIndex(s, from) && ValidIndex(s, to) && |r.after| == |s|
    ensures r.result.Ok? ==> forall k :: 0 <= k < |s| && k != from && k != to ==> r.after[k] == s[k]
    ensures ValidBalances(s) ==> ValidBalances(r.after)
  {
    if amount <= 0 then Outcome(s, Err(IllegalArgument))
    else if from == to then Outcome(s, Err(IllegalArgument))
    else if !ValidIndex(s, from) || !ValidIndex(s, to) then Outcome(s, Err(IndexOutOfBounds))
    else if amount > s[from] then Outcome(s, Err(IllegalState(Underflow)))
    else if amount > MAX_AMOUNT || s[to] + amount > MAX_AMOUNT then Outcome(s, Err(IllegalState(Overflow)))
    else Outcome(s[from := s[from] - amount][to := s[to] + amount], Ok(()))
  }

  // ---------------------------------------------------------------------------
  // The documented contracts, case by case

  /** A new bank has `n` accounts, each holding 0, and holds 0 in total. */
  lemma {:induction false} NewBankIsEmpty(n: nat)
    ensures |Zeros(n)| == n && ValidBalances(Zeros(n))
    ensures forall k :: 0 <= k < n ==> GetAmount(Zeros(n), k) == Ok(0)
    ensures Total(Zeros(n)) == 0
  {
    if n > 0 {
      NewBankIsEmpty(n - 1);
      assert Zeros(n)[..n - 1] == Zeros(n - 1);
    }
  }

  /**
   * `deposit` fails with IllegalArgument exactly when amount <= 0, then with
   * IndexOutOfBounds exactly when the index is bad, then with an overflow exactly when
   * the result would exceed MAX_AMOUNT; otherwise the account gains `amount` and the new
   * balance is returned.
   */
  lemma DepositContract(s: seq<int>, index: int, amount: int)
    requires ValidBalances(s)
    ensures var r := Deposit(s, index, amount);
      && (r.result == Err(IllegalArgument) <==> amount <= 0)
      && (r.result == Err(IndexOutOfBounds) <==> amount > 0 && !ValidIndex(s, index))
      && (r.result == Err(IllegalState(Overflow)) <==>
            amount > 0 && ValidIndex(s, index) && s[index] + amount > MAX_AMOUNT)
      && (r.result.Ok? ==> r.result.value == s[index] + amount)
      && r.result != Err(IllegalState(Underflow))
  {
  }

  /**
   * `withdraw` fails with IllegalArgument exactly when amount <= 0, then with
   * IndexOutOfBounds, then with an underflow exactly when the account holds less than
   * `amount`; otherwise the account loses `amount` and the new balance is returned.
   */
  lemma WithdrawContract(s: seq<int>, index: int, amount: int)
    ensures var r := Withdraw(s, index, amount);
      && (r.result == Err(IllegalArgument) <==> amount <= 0)
      && (r.result == Err(IndexOutOfBounds) <==> amount > 0 && !ValidIndex(s, index))
      && (r.result == Err(IllegalState(Underflow)) <==>
            amount > 0 && ValidIndex(s, index) && s[index] < amount)
      && (r.result.Ok? ==> r.result.value == s[index] - amount && r.result.value >= 0)
      && r.result != Err(IllegalState(Overflow))
  {
  }

  /**
   * `transfer` rejects a non-positive amount and then equal indices, both before any
   * index is used; then bad indices; then an underflow of the source takes precedence
   * over an overflow of the target. On success the source loses and the target gains
   * `amount`.
   */
  lemma TransferContract(s: seq<int>, from: int, to: int, amount: int)
    requires ValidBalances(s)
    ensures var r := Transfer(s, from, to, amount);
      && (r.result == Err(IllegalArgument) <==> amount <= 0 || from == to)
      && (r.result == Err(IndexOutOfBounds) <==>
            amount > 0 && from != to && (!ValidIndex(s, from) || !ValidIndex(s, to)))
      && (r.result == Err(IllegalState(Underflow)) <==>
            amount > 0 && from != to && ValidIndex(s, from) && ValidIndex(s, to) && amount > s[from])
      && (r.result == Err(IllegalState(Overflow)) <==>
            amount > 0 && from != to && ValidIndex(s, from) && ValidIndex(s, to) &&
            amount <= s[from] && s[to] + amount > MAX_AMOUNT)
      && (r.result.Ok? ==> r.after[from] == s[from] - amount && r.after[to] == s[to] + amount)
  {
  }

  /**
   * On a valid bank the `amount > MAX_AMOUNT` half of the transfer's overflow test never
   * decides anything: such an amount always exceeds the source balance first.
   */
  lemma TransferHugeAmountIsUnderflow(s: seq<int>, from: int, to: int, amount: int)
    requires ValidBalances(s) && ValidIndex(s, from) && ValidIndex(s, to) && from != to
    requires amount > MAX_AMOUNT
    ensures Transfer(s, from, to, amount).result == Err(IllegalState(Underflow))
  {
    assert InBounds(s[from]);
  }

  // ---------------------------------------------------------------------------
  // The total

  /** Changing one balance changes the total by the difference. */
  lemma {:induction false} TotalUpdate(s: seq<int>, i: int, v: int)
    requires 0 <= i < |s|
    ensures Total(s[i := v]) == Total(s) - s[i] + v
    decreases |s|
  {
    var t := s[i := v];
    var last := |s| - 1;
    assert t[..last] == if i == last then s[..last] else s[..last][i := v];
    if i < last {
      TotalUpdate(s[..last], i, v);
    }
  }

  /** A successful deposit raises the total by exactly `amount`. */
  lemma DepositRaisesTotal(s: seq<int>, index: int, amount: int)
    requires Deposit(s, index, amount).result.Ok?
    ensures Total(Deposit(s, index, amount).after) == Total(s) + amount
  {
    TotalUpdate(s, index, s[index] + amount);
  }

  /** A successful withdrawal lowers the total by exactly `amount`. */
  lemma WithdrawLowersTotal(s: seq<int>, index: int, amount: int)
    requires Withdraw(s, index, amount).result.Ok?
    ensures Total(Withdraw(s, index, amount).after) == Total(s) - amount
  {
    TotalUpdate(s, index, s[index] - amount);
  }

  /** A transfer, successful or not, leaves the total unchanged. */
  lemma TransferKeepsTotal(s: seq<int>, from: int, to: int, amount: int)
    ensures Total(Transfer(s, from, to, amount).after) == Total(s)
  {
    if Transfer(s, from, to, amount).result.Ok? {
      TotalMove(s, from, to, amount);
    }
  }

  /** Moving an amount between two distinct accounts leaves the total unchanged. */
  lemma TotalMove(s: seq<int>, from: int, to: int, amount: int)
    requires 0 <= from < |s| && 0 <= to < |s| && from != to
    ensures Total(s[from := s[from] - amount][to := s[to] + amount]) == Total(s)
  {
    var s1 := s[from := s[from] - amount];
    TotalUpdate(s, from, s[from] - amount);
    TotalUpdate(s1, to, s[to] + amount);
  }

  // ---------------------------------------------------------------------------
  // Sequences of calls: the total is what was deposited minus what was withdrawn

  /** One call of an operation that may change the balances. */
  datatype Call =
    | DepositCall(index: int, amount: int)
    | WithdrawCall(index: int, amount: int)
    | TransferCall(from: int, to: int, amount: int)

  /** The balances after one call. */
  function After(s: seq<int>, c: Call): seq<int> {
    match c
    case DepositCall(i, a) => Deposit(s, i, a).after
    case WithdrawCall(i, a) => Withdraw(s, i, a).after
    case TransferCall(f, t, a) => Transfer(s, f, t, a).after
  }

  /** What one call adds to the bank's holdings: a deposit or withdrawal that succeeds. */
  function Deposited(s: seq<int>, c: Call): int {
    match c
    case DepositCall(i, a) => if Deposit(s, i, a).result.Ok? then a else 0
    case WithdrawCall(i, a) => if Withdraw(s, i, a).result.Ok? then -a else 0
    case TransferCall(_, _, _) => 0
  }

  /** The balances after a sequence of calls, one after another. */
  function Replay(s: seq<int>, calls: seq<Call>): seq<int>
    decreases |calls|
  {
    if calls == [] then s else Replay(After(s, calls[0]), calls[1..])
  }

  /** The net amount a sequence of calls deposits. */
  function NetDeposited(s: seq<int>, calls: seq<Call>): int
    decreases |calls|
  {
    if calls == [] then 0 else Deposited(s, calls[0]) + NetDeposited(After(s, calls[0]), calls[1..])
  }

  /** Any sequence of calls keeps the number of accounts and the per-account invariant. */
  lemma {:induction false} ReplayKeepsValid(s: seq<int>, calls: seq<Call>)
    requires ValidBalances(s)
    ensures |Replay(s, calls)| == |s| && ValidBalances(Replay(s, calls))
    decreases |calls|
  {
    if calls != [] {
      ReplayKeepsValid(After(s, calls[0]), calls[1..]);
    }
  }

  /** After any sequence of calls the total has changed by exactly the net amount deposited. */
  lemma {:induction false} ReplayTotal(s: seq<int>, calls: seq<Call>)
    ensures Total(Replay(s, calls)) == Total(s) + NetDeposited(s, calls)
    decreases |calls|
  {
    if calls != [] {
      var c := calls[0];
      match c {
        case DepositCall(i, a) =>
          if Deposit(s, i, a).result.Ok? { DepositRaisesTotal(s, i, a); }
        case WithdrawCall(i, a) =>
          if Withdraw(s, i, a).result.Ok? { WithdrawLowersTotal(s, i, a); }
        case TransferCall(f, t, a) =>
          TransferKeepsTotal(s, f, t, a);
      }
      ReplayTotal(After(s, c), calls[1..]);
    }
  }

  /** The total amount of a bank created with `n` accounts is the amount deposited into it since. */
  lemma TotalIsAmountDeposited(n: nat, calls: seq<Call>)
    ensures Total(Replay(Zeros(n), calls)) == NetDeposited(Zeros(n), calls)
  {
    NewBankIsEmpty(n);
    ReplayTotal(Zeros(n), calls);
  }
}
