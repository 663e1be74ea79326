/** Products, quotients and remainders: the few nonlinear facts that the other modules use. */
module Arithmetic {

  lemma ProductBounds(p: int, x: int)
    requires p > 0
    ensures x >= 1 ==> p * x >= p
    ensures x <= -1 ==> p * x <= -p
  {
  }

  lemma ProductMonotone(x: int, y: int, z: int)
    requires x <= y && z >= 0
    ensures x * z <= y * z
  {
  }

  lemma RemainderUnique(x: int, d: int, q: int, r: int)
    requires 0 <= r < d && x == d * q + r
    ensures x / d == q && x % d == r
  {
    var q', r' := x / d, x % d;
    assert d * (q - q') == r' - r;
    ProductBounds(d, q - q');
  }

  lemma MultipleModZero(p: int, k: int)
    requires p > 0
    ensures (p * k) % p == 0
  {
    RemainderUnique(p * k, p, k, 0);
  }

  // ---- Tables stored row by row

  /** Cell of row `b`, column `k` in a table of the given width, counted row by row. */
  function Slot(b: nat, k: nat, width: nat): nat {
    if b == 0 then k else width + Slot(b - 1, k, width)
  }

  lemma {:induction false} SlotValue(b: nat, k: nat, width: nat)
    ensures Slot(b, k, width) == b * width + k
  {
    if b > 0 {
      SlotValue(b - 1, k, width);
    }
  }

  lemma SlotInBounds(b: nat, k: nat, width: nat, height: nat)
    requires b < height && k < width
    ensures Slot(b, k, width) == b * width + k < height * width
  {
    SlotValue(b, k, width);
    ProductMonotone(b + 1, height, width);
  }

  lemma {:induction false} SlotInjective(b: nat, k: nat, b': nat, k': nat, width: nat)
    requires k < width && k' < width && Slot(b, k, width) == Slot(b', k', width)
    ensures b == b' && k == k'
  {
    if b > 0 && b' > 0 {
      SlotInjective(b - 1, k, b' - 1, k', width);
    }
  }

  /** `n * w`, as repeated addition: it keeps proofs about products of two variables linear. */
  function Times(n: nat, w: nat): nat {
    if n == 0 then 0 else Times(n - 1, w) + w
  }

  lemma {:induction false} TimesValue(n: nat, w: nat)
    ensures Times(n, w) == n * w
  {
    if n > 0 {
      TimesValue(n - 1, w);
    }
  }

  lemma {:induction false} TimesSum(n: nat, m: nat, w: nat)
    ensures Times(n + m, w) == Times(n, w) + Times(m, w)
  {
    if m > 0 {
      TimesSum(n, m - 1, w);
    }
  }
}
