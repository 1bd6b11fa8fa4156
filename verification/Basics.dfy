/** Notions the models share. */
module Basics {

  datatype Option<T> = None | Some(value: T)

  type byte = n: nat | n < 256

  /** The values of an unsigned 32-bit integer. */
  type DWORD = n: nat | n < 0x1_0000_0000

  function Max(a: nat, b: nat): nat {
    if a < b then b else a
  }

  function Zeros(n: nat): (z: seq<byte>)
    ensures |z| == n
  {
    seq(n, _ => 0 as byte)
  }

  function Pow2(k: nat): (p: nat)
    ensures p >= 1
  {
    if k == 0 then 1 else 2 * Pow2(k - 1)
  }

  lemma MulMonotone(a: nat, b: nat, c: nat)
    ensures a <= b ==> a * c <= b * c
  {
  }

  /** The quotient is the number of times that m goes into n. */
  lemma Quotient(n: nat, m: nat, q: nat)
    requires m > 0
    ensures q == n / m <==> q * m <= n < (q + 1) * m
    ensures n % m == 0 <==> (n / m) * m == n
  {
    var k := n / m;
    assert k * m == m * k && n == m * k + n % m;
    MulMonotone(k + 1, q, m);
    MulMonotone(q + 1, k, m);
    assert (k + 1) * m == k * m + m;
  }
}
