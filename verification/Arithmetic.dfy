/** Facts about division by a variable that the proofs state once. */
module Arithmetic {

  lemma Grows(step: nat, d: int)
    requires step > 0
    ensures d >= 1 ==> step * d >= step
    ensures d <= -1 ==> step * d <= 0 - step
  {
  }

  lemma Distributes(a: int, b: int, c: int)
    ensures a * (b - c) == a * b - a * c
  {
  }

  lemma Quotient(x: int, step: nat)
    requires step > 0
    ensures x == step * (x / step) + x % step && 0 <= x % step < step
  {
  }

  /** The remainder of a division is unique. */
  lemma Remainder(x: int, q: int, r: nat, step: nat)
    requires r < step && x == step * q + r
    ensures x % step == r
  {
    hide *;
    Quotient(x, step);
    Distributes(step, x / step, q);
    Grows(step, x / step - q);
  }

  /** Between one multiple and the next there is no other. */
  lemma MultiplesAreSpaced(n: nat, k: nat, step: nat)
    requires step > 0 && n % step == 0 && n <= k < n + step
    ensures k % step == 0 <==> k == n
    ensures (n + step) % step == 0
  {
    Quotient(n, step);
    Remainder(k, n / step, k - n, step);
    Distributes(step, n / step, -1);
    Remainder(n + step, n / step + 1, 0, step);
  }
}
