/** Bit masks and powers of two on unbounded naturals. */
module Bits {

  function Pow2(k: nat): (r: nat)
    ensures r > 0
  {
    if k == 0 then 1 else 2 * Pow2(k - 1)
  }

  /** Bitwise conjunction. */
  function And(a: nat, b: nat): (r: nat)
    ensures r <= b
  {
    if a == 0 || b == 0 then 0
    else 2 * And(a / 2, b / 2) + (if a % 2 == 1 && b % 2 == 1 then 1 else 0)
  }

  ghost predicate IsPow2(n: nat) { exists k: nat :: n == Pow2(k) }

  lemma AndHalves(a: nat, m: nat)
    requires m > 0
    ensures And(a, 2 * m - 1) == 2 * And(a / 2, m - 1) + a % 2
  {
    assert (2 * m - 1) / 2 == m - 1 && (2 * m - 1) % 2 == 1;
  }

  lemma Doubled(h: nat, q: nat, m: nat, r: nat)
    requires h / 2 == q * m + r
    ensures h == q * (2 * m) + (2 * r + h % 2)
  {
    assert q * (2 * m) == 2 * (q * m);
  }

  /** Masking with a power of two less one takes the remainder: what it drops is a multiple. */
  lemma {:induction false} MaskIsRemainder(h: nat, k: nat) returns (q: nat)
    ensures h == q * Pow2(k) + And(h, Pow2(k) - 1)
  {
    if k == 0 {
      q := h;
    } else {
      hide And;
      var m := Pow2(k - 1);
      q := MaskIsRemainder(h / 2, k - 1);
      AndHalves(h, m);
      Doubled(h, q, m, And(h / 2, m - 1));
    }
  }

  /** Two hashes that agree under the doubled mask agree under the mask. */
  lemma {:induction false} MaskDoubled(a: nat, b: nat, k: nat)
    requires And(a, 2 * Pow2(k) - 1) == And(b, 2 * Pow2(k) - 1)
    ensures And(a, Pow2(k) - 1) == And(b, Pow2(k) - 1)
  {
    hide And;
    if k > 0 {
      var m := Pow2(k - 1);
      AndHalves(a, 2 * m);
      AndHalves(b, 2 * m);
      AndHalves(a, m);
      AndHalves(b, m);
      MaskDoubled(a / 2, b / 2, k - 1);
    }
  }
}
