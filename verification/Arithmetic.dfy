/** Integer operations of C++ that several components use. */
module Arithmetic {
  /** Integer division: it truncates toward zero. */
  function TruncDiv(a: int, b: int): int
    requires b > 0
  {
    if a >= 0 then a / b else -(-a / b)
  }

  /** What is left over is smaller than the divisor, and has the sign of the dividend. */
  lemma TruncDivRemainder(a: int, b: int)
    requires b > 0
    ensures var left := a - TruncDiv(a, b) * b;
            if a >= 0 then 0 <= left < b else -b < left <= 0
  {
    if a < 0 {
      assert TruncDiv(a, b) * b == -((-a / b) * b);
    }
  }

  /** `std::clamp`. */
  function Clamp(x: int, lo: int, hi: int): int {
    if x < lo then lo else if x > hi then hi else x
  }

  /** It is in the range, and no other number of the range is as near. */
  lemma ClampIsNearest(x: int, lo: int, hi: int, y: int)
    requires lo <= y <= hi && y != Clamp(x, lo, hi)
    ensures lo <= Clamp(x, lo, hi) <= hi
    ensures Distance(x, Clamp(x, lo, hi)) < Distance(x, y)
  {
  }

  function Distance(x: int, y: int): nat {
    if x < y then y - x else x - y
  }
}
