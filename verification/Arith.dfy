/**
 Products, quotients and remainders of naturals by repeated addition and subtraction. The grid and
 buffer proofs use these so that they stay linear; `TimesIsProduct` says that `Times` is the product
 the program computes, and `Split` / `Join` that `Quo` and `Rem` are its Euclidean division.
 */
module Arith {
  /** n * k */
  function Times(n: nat, k: nat): nat {
    if k == 0 then 0 else Times(n, k - 1) + n
  }

  /** x / n */
  function Quo(n: nat, x: nat): nat
    requires 0 < n
  {
    if x < n then 0 else 1 + Quo(n, x - n)
  }

  /** x % n */
  function Rem(n: nat, x: nat): nat
    requires 0 < n
  {
    if x < n then x else Rem(n, x - n)
  }

  function Min(a: int, b: int): int {
    if a < b then a else b
  }

  function Max(a: int, b: int): int {
    if a < b then b else a
  }

  /** std::clamp */
  function Clamp(x: int, low: int, high: int): int {
    if x < low then low else if x > high then high else x
  }

  /** The number nearest to x between the bounds, and the only one. */
  lemma ClampIsNearest(x: int, low: int, high: int, z: int)
    requires low <= z <= high
    ensures low <= Clamp(x, low, high) <= high
    ensures (if x < z then z - x else x - z) > (if x < Clamp(x, low, high) then Clamp(x, low, high) - x
                                                 else x - Clamp(x, low, high)) || z == Clamp(x, low, high)
  {
  }

  lemma {:induction false} TimesIsProduct(n: nat, k: nat)
    ensures Times(n, k) == n * k
  {
    if k > 0 {
      TimesIsProduct(n, k - 1);
      assert n * k == n * (k - 1) + n;
    }
  }

  lemma TimesMonotone(n: nat, k: nat, k': nat)
    requires k <= k'
    ensures Times(n, k) <= Times(n, k')
    ensures k < k' ==> Times(n, k) + n <= Times(n, k')
    decreases k'
  {
    if k < k' {
      TimesMonotone(n, k, k' - 1);
    }
  }

  lemma {:induction false} TimesAdd(n: nat, k: nat, k': nat)
    ensures Times(n, k + k') == Times(n, k) + Times(n, k')
    decreases k'
  {
    if k' > 0 {
      TimesAdd(n, k, k' - 1);
    }
  }

  /** The quotient and remainder of n * k + r, for r < n, are k and r. */
  lemma {:induction false} Join(n: nat, k: nat, r: nat)
    requires r < n
    ensures Quo(n, Times(n, k) + r) == k && Rem(n, Times(n, k) + r) == r
    decreases k
  {
    if k > 0 {
      Join(n, k - 1, r);
    }
  }

  lemma {:induction false} Split(n: nat, x: nat)
    requires 0 < n
    ensures x == Times(n, Quo(n, x)) + Rem(n, x) && Rem(n, x) < n
    decreases x
  {
    if x >= n {
      Split(n, x - n);
    }
  }

  /** n * a <= x < n * b just when a <= x / n < b. */
  lemma QuoBetween(n: nat, x: nat, a: nat, b: nat)
    requires 0 < n
    ensures Times(n, a) <= x <==> a <= Quo(n, x)
    ensures x < Times(n, b) <==> Quo(n, x) < b
  {
    Split(n, x);
    var q := Quo(n, x);
    if a <= q { TimesMonotone(n, a, q); } else { TimesMonotone(n, q, a); }
    if b <= q { TimesMonotone(n, b, q); } else { TimesMonotone(n, q, b); }
  }
}
