/** Fee-rate arithmetic (`CFeeRate`): a rate is an amount per 1000 bytes of
    virtual size. The definitions follow Bitcoin Core's integer formulas,
    including C++'s division that truncates toward zero. */
module FeeRate {

  /** C++ `a / b` for a positive divisor: the quotient truncated toward zero. */
  function TDiv(a: int, b: int): (q: int)
    requires b > 0
    ensures a >= 0 ==> 0 <= q && q * b <= a < q * b + b
    ensures a < 0 ==> q <= 0 && q * b - b < a <= q * b
  {
    if a >= 0 then a / b else -((-a) / b)
  }

  /** `CFeeRate(fee, size)`: the per-kB rate of paying `fee` for `size` bytes;
      zero when the size is not positive. */
  function RateOf(fee: int, size: int): (rate: int)
    ensures size > 0 && fee >= 0 ==> rate * size <= fee * 1000 < (rate + 1) * size
    ensures size > 0 && fee >= 0 ==> rate >= 0
    ensures size <= 0 ==> rate == 0
  {
    if size > 0 then TDiv(fee * 1000, size) else 0
  }

  /** `CFeeRate::GetFee(size)`: the fee at `rate` for `size` bytes, rounded
      toward zero, except that a non-zero rate never yields a zero fee for a
      non-empty size. */
  function GetFee(rate: int, size: int): (fee: int)
    requires size >= 0
    ensures rate >= 0 ==> fee >= 0
    ensures rate >= 0 && size > 0 && rate * size >= 1000 ==> fee * 1000 <= rate * size < (fee + 1) * 1000
    ensures rate > 0 && size > 0 ==> fee >= 1
  {
    var f := TDiv(rate * size, 1000);
    if f == 0 && size != 0 then
      (if rate > 0 then 1 else if rate < 0 then -1 else 0)
    else f
  }

  /** The fee at a non-negative rate is at least the exact product rounded
      down: `1000 * GetFee(rate, size) > rate * size - 1000`. */
  lemma {:induction false} GetFeeLowerBound(rate: int, size: int)
    requires rate >= 0 && size >= 0
    ensures GetFee(rate, size) * 1000 > rate * size - 1000
  {
    var f := TDiv(rate * size, 1000);
    assert f * 1000 <= rate * size < (f + 1) * 1000;
  }
}
