/** Small value types and arithmetic shared by every component model. */
module Prelude {

  datatype Option<+T> = None | Some(value: T)

  datatype Result<+T> = Ok(value: T) | Err(error: string)

  function Max(a: int, b: int): int {
    if a > b then a else b
  }

  function Min(a: int, b: int): int {
    if a < b then a else b
  }

  /** Number of steps of size `step` needed to cover `total`. */
  function CeilDiv(total: nat, step: nat): nat
    requires step > 0
  {
    (total + step - 1) / step
  }

  /** One step covers `step` units, so it lowers the number of remaining steps by exactly one. */
  lemma {:induction false} CeilDivStep(total: nat, step: nat)
    requires step > 0
    ensures total == 0 ==> CeilDiv(total, step) == 0
    ensures total > 0 ==> CeilDiv(total, step) == 1 + CeilDiv(if total > step then total - step else 0, step)
  {
    if total == 0 {
      SmallQuotient(step - 1, step);
    } else if total > step {
      var rest := total - step + step - 1;
      QuotientShift(rest, step);
    } else {
      SmallQuotient(total - 1, step);
      QuotientShift(total - 1, step);
      SmallQuotient(step - 1, step);
    }
  }

  lemma {:induction false} SmallQuotient(x: nat, step: nat)
    requires x < step
    ensures x / step == 0
  {
  }

  lemma {:induction false} QuotientShift(x: nat, step: nat)
    requires step > 0
    ensures (x + step) / step == x / step + 1
  {
    var q, r := x / step, x % step;
    assert x + step == (q + 1) * step + r;
    QuotientUnique(x + step, step, q + 1, r);
  }

  lemma {:induction false} QuotientUnique(x: int, step: nat, q: int, r: int)
    requires step > 0 && 0 <= r < step && x == q * step + r
    ensures x / step == q && x % step == r
  {
    MultipleGap(q, x / step, step, r, x % step);
  }

  /** Two ways to write one number as quotient and remainder are the same way. */
  lemma {:induction false} MultipleGap(q: int, q': int, step: int, r: int, r': int)
    requires 0 <= r < step && 0 <= r' < step
    requires q * step + r == q' * step + r'
    ensures q == q' && r == r'
  {
    if q > q' {
      Spread(q, q', step);
    } else if q < q' {
      Spread(q', q, step);
    }
  }

  lemma {:induction false} Spread(a: int, b: int, step: int)
    requires a > b && step > 0
    ensures a * step >= b * step + step
    decreases a - b
  {
    assert a * step == (a - 1) * step + step;
    if a > b + 1 {
      Spread(a - 1, b, step);
    }
  }

  lemma {:induction false} Associate<T>(a: seq<T>, b: seq<T>, c: seq<T>)
    ensures a + (b + c) == (a + b) + c
  {
  }
}
