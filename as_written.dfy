/**
 * The balance updates of `deposit`, `withdraw` and `transfer` as the source writes them:
 * the `amount` field of an account is a Java `int`, the tests are computed in `long`
 * arithmetic, and the compound assignments `+=` and `-=` narrow the `long` result back to
 * an `int`.
 *
 * MAX_AMOUNT is far above the largest `int`, so the overflow test lets through sums that
 * the narrowing then wraps around. The rest of the model keeps balances as `long` values,
 * as the interface and its bound intend; the lemmas here show where the two agree and
 * give inputs where they do not.
 */
module AsWritten {
  import opened JavaInts
  import opened Bank

  /** The `long` result of a call, widened from the `int` field, as the caller sees it. */
  function Widen(w: Result<int32>): (r: Result<int>)
    ensures r.Ok? <==> w.Ok?
    ensures r.Ok? ==> INT64_MIN <= r.value <= INT64_MAX && Narrow(r.value as int64) == w.value
    ensures r.Err? ==> r.error == w.error
  {
    match w
    case Ok(v) => Ok(v as int)
    case Err(e) => Err(e)
  }

  /** `deposit` on one account whose field holds `balance`, once the index is known to be valid. */
  function DepositAsWritten(balance: int32, amount: int64): (r: Result<int32>)
    ensures r.Ok? ==> amount > 0
    ensures r.Ok? && balance as int + amount as int <= INT32_MAX ==> r.value as int == balance as int + amount as int
    ensures r.Err? ==> r.error == IllegalArgument || r.error == IllegalState(Overflow)
  {
    if amount <= 0 then Err(IllegalArgument)
    else if amount as int > MAX_AMOUNT || WrapLong(balance as int + amount as int) as int > MAX_AMOUNT
    then Err(IllegalState(Overflow))
    else Ok(Narrow(WrapLong(balance as int + amount as int)))
  }

  /** `withdraw` on one account whose field holds `balance`, once the index is known to be valid. */
  function WithdrawAsWritten(balance: int32, amount: int64): (r: Result<int32>)
    ensures r.Ok? ==> amount > 0
    ensures r.Ok? && INT32_MIN <= balance as int - amount as int ==> r.value as int == balance as int - amount as int
    ensures r.Err? ==> r.error == IllegalArgument || r.error == IllegalState(Underflow)
  {
    if amount <= 0 then Err(IllegalArgument)
    else if WrapLong(balance as int - amount as int) < 0 then Err(IllegalState(Underflow))
    else Ok(Narrow(WrapLong(balance as int - amount as int)))
  }

  /**
   * `transfer` between two distinct accounts whose fields hold `from` and `to`, once both
   * indices are known to be valid: the new values of the two fields.
   */
  function TransferAsWritten(from: int32, to: int32, amount: int64): (r: Result<(int32, int32)>)
    ensures r.Ok? ==> 0 < amount as int <= from as int
    ensures r.Ok? ==> r.value.0 as int == from as int - amount as int
    ensures r.Ok? && to as int + amount as int <= INT32_MAX ==> r.value.1 as int == to as int + amount as int
  {
    if amount <= 0 then Err(IllegalArgument)
    else if amount as int > from as int then Err(IllegalState(Underflow))
    else if amount as int > MAX_AMOUNT || WrapLong(to as int + amount as int) as int > MAX_AMOUNT
    then Err(IllegalState(Overflow))
    else Ok((Narrow(WrapLong(from as int - amount as int)), Narrow(WrapLong(to as int + amount as int))))
  }

  /**
   * On a non-negative field the as-written deposit fails exactly as the intended one does,
   * and on success returns the intended balance exactly when that balance fits in an `int`.
   */
  lemma DepositAsWrittenAgrees(balance: int32, amount: int64)
    requires 0 <= balance
    ensures var w := DepositAsWritten(balance, amount);
      var c := Deposit([balance as int], 0, amount as int).result;
      && (w.Err? ==> Widen(w) == c)
      && (w.Ok? <==> c.Ok?)
      && (w.Ok? ==> (Widen(w) == c <==> c.value <= INT32_MAX))
  {
  }

  /** On a non-negative field the as-written withdrawal always agrees with the intended one. */
  lemma WithdrawAsWrittenAgrees(balance: int32, amount: int64)
    requires 0 <= balance
    ensures Widen(WithdrawAsWritten(balance, amount)) == Withdraw([balance as int], 0, amount as int).result
  {
  }

  /**
   * On non-negative fields the as-written transfer fails exactly as the intended one does;
   * on success the source field is always right, and the target field is right exactly
   * when the target's new balance fits in an `int`.
   */
  lemma TransferAsWrittenAgrees(from: int32, to: int32, amount: int64)
    requires 0 <= from && 0 <= to
    ensures var w := TransferAsWritten(from, to, amount);
      var c := Transfer([from as int, to as int], 0, 1, amount as int);
      && (w.Ok? <==> c.result.Ok?)
      && (w.Err? ==> c.result == Err(w.error))
      && (w.Ok? ==> w.value.0 as int == c.after[0])
      && (w.Ok? ==> (w.value.1 as int == c.after[1] <==> c.after[1] <= INT32_MAX))
  {
  }

  /**
   * Depositing 2^31 into an empty account passes the overflow test but leaves the account
   * holding -2^31, which is also the value returned; the intended result is 2^31.
   */
  lemma DepositWrapsNegative()
    ensures DepositAsWritten(0, 0x8000_0000) == Ok(-0x8000_0000)
    ensures Deposit([0], 0, 0x8000_0000) == Outcome([0x8000_0000], Ok(0x8000_0000))
  {
  }

  /**
   * Transferring 1 from an account holding 1 to an account holding 2^31 - 1 leaves the
   * target at -2^31: the two accounts held 2^31 together before and -2^31 after. The
   * intended transfer leaves the target at 2^31 and the total unchanged.
   */
  lemma TransferBreaksTotal()
    ensures TransferAsWritten(1, 0x7fff_ffff, 1) == Ok((0, -0x8000_0000))
    ensures Transfer([1, 0x7fff_ffff], 0, 1, 1) == Outcome([0, 0x8000_0000], Ok(()))
  {
    assert [1, 0x7fff_ffff][0 := 0][1 := 0x8000_0000] == [0, 0x8000_0000];
  }

  /**
   * A field made negative by the deposit wrap breaks the underflow test too. Depositing
   * 2^32 - 2 into an empty account leaves -2; withdrawing Long.MAX_VALUE from it then makes
   * the `long` difference wrap to a positive value, so the test passes, and the field is
   * left at -1, which is also returned. With a `long` field the account holds 2^32 - 2 and
   * the same withdrawal is an Underflow.
   */
  lemma WithdrawPassesOnNegativeField()
    ensures DepositAsWritten(0, 0xffff_fffe) == Ok(-2)
    ensures WithdrawAsWritten(-2, 0x7fff_ffff_ffff_ffff) == Ok(-1)
    ensures Deposit([0], 0, 0xffff_fffe) == Outcome([0xffff_fffe], Ok(0xffff_fffe))
    ensures Withdraw([0xffff_fffe], 0, INT64_MAX) == Outcome([0xffff_fffe], Err(IllegalState(Underflow)))
  {
  }
}
