/**
 * Integer facts used by the block index arithmetic: Euclidean division and
 * remainder by a positive divisor, and the offset t * b of block t.
 */
module Arith {

  /** Division by a positive divisor is determined by quotient and remainder. */
  lemma DivModUnique(x: int, q: int, d: int, m: int)
    requires q > 0 && 0 <= m < q && x == d * q + m
    ensures x / q == d && x % q == m
  {
    var d', m' := x / q, x % q;
    assert x == d' * q + m';
    if d' > d {
      MulMonotone(d' - d, 1, q);
    } else if d' < d {
      MulMonotone(d - d', 1, q);
    }
  }

  lemma MulMonotone(a: int, b: int, q: int)
    requires a >= b && q >= 0
    ensures a * q >= b * q
  {
    assert a * q - b * q == (a - b) * q;
  }

  /** Adding a multiple-free remainder does not change the residue. */
  lemma ModAddMod(a: int, b: int, q: int)
    requires q > 0
    ensures (a + b % q) % q == (a + b) % q
  {
    var d := (a + b) / q;
    var m := (a + b) % q;
    assert a + b % q == (d - b / q) * q + m;
    DivModUnique(a + b % q, q, d - b / q, m);
  }

  lemma ModSmall(x: int, q: int)
    requires 0 <= x < q
    ensures x % q == x
  {
    DivModUnique(x, q, 0, x);
  }

  /**
   * t * b, the offset of the t-th block of size b. Named so that quantified
   * facts about block offsets have a term to trigger on.
   */
  function Off(t: nat, b: nat): nat {
    t * b
  }

  lemma OffStep(t: nat, b: nat)
    ensures Off(t + 1, b) == Off(t, b) + b
  {
  }

  lemma OffMonotone(s: nat, t: nat, b: nat)
    requires s <= t
    ensures Off(s, b) <= Off(t, b)
  {
    MulMonotone(t, s, b);
  }

  /** Block t of size b ends within q blocks when t < q. */
  lemma OffFits(t: nat, q: nat, b: nat)
    requires t < q
    ensures Off(t, b) + b <= Off(q, b)
  {
    OffMonotone(t + 1, q, b);
  }

  /** n splits into q consecutive blocks of size b, each of which ends within n. */
  predicate Tiled(n: nat, q: nat, b: nat) {
    n == Off(q, b) && forall t :: 0 <= t < q ==> Off(t, b) + b <= n
  }

  lemma TiledOff(q: nat, b: nat)
    ensures Tiled(Off(q, b), q, b)
  {
    forall t | 0 <= t < q
      ensures Off(t, b) + b <= Off(q, b)
    {
      OffFits(t, q, b);
    }
  }

  /** A position below q blocks of size b lies in block x / b < q, at x % b from its start. */
  lemma BlockIndex(x: nat, q: nat, b: nat)
    requires x < Off(q, b)
    ensures b > 0 && x / b < q && x % b < b && Off(x / b, b) + x % b == x
  {
    if b > 0 && x / b >= q {
      MulMonotone(x / b, q, b);
    }
  }

  /** Position x of block i has block index i and offset x. */
  lemma InBlock(i: nat, b: nat, x: nat)
    requires x < b
    ensures (Off(i, b) + x) / b == i && (Off(i, b) + x) % b == x
  {
    DivModUnique(Off(i, b) + x, b, i, x);
  }
}
