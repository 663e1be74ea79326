/** The bit arithmetic that the hash tables rely on: `next_pow2` (src/map.c, src/pkt-set-manager.c)
    and masking by a power of two.  Unsigned words are numbers; the bitwise operators are defined
    bit by bit. */
module PowersOfTwo {
  import opened Arithmetic

  const UINT32: int := 0x1_0000_0000

  function Pow2(k: nat): (r: nat)
    ensures r > 0
  {
    if k == 0 then 1 else 2 * Pow2(k - 1)
  }

  ghost predicate IsPowerOfTwo(c: int) {
    exists k: nat :: c == Pow2(k)
  }

  function And(x: nat, y: nat): nat {
    if x == 0 || y == 0 then 0
    else (if x % 2 == 1 && y % 2 == 1 then 1 else 0) + 2 * And(x / 2, y / 2)
  }

  function Or(x: nat, y: nat): nat
    decreases x + y
  {
    if x == 0 then y else if y == 0 then x
    else (if x % 2 == 1 || y % 2 == 1 then 1 else 0) + 2 * Or(x / 2, y / 2)
  }

  function Shr(x: nat, k: nat): nat {
    if k == 0 then x else Shr(x / 2, k - 1)
  }

  predicate Bit(x: nat, i: nat) {
    if i == 0 then x % 2 == 1 else Bit(x / 2, i - 1)
  }

  /** Masking with a power of two minus one is the remainder modulo that power. */
  lemma MaskIsModulo(x: nat, c: nat)
    requires IsPowerOfTwo(c)
    ensures And(x, c - 1) == x % c
  {
    var k: nat :| c == Pow2(k);
    MaskLowBits(x, k);
  }

  lemma {:induction false} MaskLowBits(x: nat, k: nat)
    ensures And(x, Pow2(k) - 1) == x % Pow2(k)
  {
    if k > 0 {
      var c := Pow2(k - 1);
      MaskLowBits(x / 2, k - 1);
      RemainderByBits(x, c);
      MaskStep(x, c);
    }
  }

  lemma MaskStep(x: nat, c: nat)
    requires c > 0 && And(x / 2, c - 1) == x / 2 % c
    ensures And(x, 2 * c - 1) == x % 2 + 2 * (x / 2 % c)
  {
    assert (2 * c - 1) / 2 == c - 1 && (2 * c - 1) % 2 == 1;
  }

  lemma RemainderByBits(x: nat, c: nat)
    requires c > 0
    ensures x % (2 * c) == x % 2 + 2 * (x / 2 % c)
  {
    var q, r := x / 2 / c, x / 2 % c;
    assert x / 2 == c * q + r;
    assert x == 2 * c * q + (x % 2 + 2 * r);
    RemainderUnique(x, 2 * c, q, x % 2 + 2 * r);
  }

  lemma {:induction false} OrBit(x: nat, y: nat, i: nat)
    ensures Bit(Or(x, y), i) == (Bit(x, i) || Bit(y, i))
  {
    if x == 0 {
      ZeroBit(i);
    } else if y == 0 {
      ZeroBit(i);
    } else if i > 0 {
      OrBit(x / 2, y / 2, i - 1);
    }
  }

  lemma ZeroBit(i: nat)
    ensures !Bit(0, i)
  {
  }

  lemma {:induction false} ShrBit(x: nat, k: nat, i: nat)
    ensures Bit(Shr(x, k), i) == Bit(x, i + k)
  {
    if k > 0 {
      ShrBit(x / 2, k - 1, i);
    }
  }

  /** The number has no bit from `n` up, and all of the top `m` bits below `n`. */
  ghost predicate TopOnes(w: nat, n: nat, m: nat) {
    forall i: nat :: if i < n then n <= i + m ==> Bit(w, i) else !Bit(w, i)
  }

  /** One step of the smearing: or-ing in the number shifted by `m` doubles the run of ones. */
  lemma Smear(w: nat, n: nat, m: nat)
    requires TopOnes(w, n, m)
    ensures TopOnes(Or(w, Shr(w, m)), n, 2 * m)
  {
    var v := Or(w, Shr(w, m));
    forall i: nat ensures if i < n then n <= i + 2 * m ==> Bit(v, i) else !Bit(v, i) {
      OrBit(w, Shr(w, m), i);
      ShrBit(w, m, i);
      assert Bit(v, i) == (Bit(w, i) || Bit(w, i + m));
    }
  }

  /** A number below a power of two with its top bit set, and conversely all ones. */
  lemma {:induction false} TopBit(w: nat) returns (n: nat)
    requires w > 0
    ensures n > 0 && Pow2(n - 1) <= w < Pow2(n) && TopOnes(w, n, 1)
  {
    if w == 1 {
      n := 1;
      forall i: nat ensures Bit(1, i) == (i == 0) {
        if i > 0 { ZeroBit(i - 1); }
      }
    } else {
      var m := TopBit(w / 2);
      n := m + 1;
      forall i: nat ensures if i < n then n <= i + 1 ==> Bit(w, i) else !Bit(w, i) {
        assert i > 0 ==> Bit(w, i) == Bit(w / 2, i - 1);
      }
    }
  }

  lemma SomeBit(w: nat) returns (i: nat)
    requires w > 0
    ensures Bit(w, i)
  {
    var n := TopBit(w);
    i := n - 1;
  }

  lemma {:induction false} AllOnes(w: nat, n: nat)
    requires TopOnes(w, n, n)
    ensures w == Pow2(n) - 1
    decreases w
  {
    if w == 0 {
      assert n > 0 ==> Bit(w, 0);
    } else {
      if n == 0 {
        var i := SomeBit(w);
      } else {
        assert Bit(w, 0);
        forall i: nat ensures if i < n - 1 then Bit(w / 2, i) else !Bit(w / 2, i) {
          assert Bit(w / 2, i) == Bit(w, i + 1);
        }
        AllOnes(w / 2, n - 1);
      }
    }
  }

  lemma {:induction false} Pow2Monotone(i: nat, j: nat)
    requires i <= j
    ensures Pow2(i) <= Pow2(j)
    decreases j - i
  {
    if i < j {
      Pow2Monotone(i + 1, j);
    }
  }

  lemma Pow2Values()
    ensures Pow2(31) == 0x8000_0000 && Pow2(32) == UINT32
  {
    assert Pow2(8) == 0x100;
    assert Pow2(16) == 0x1_0000;
    assert Pow2(24) == 0x100_0000;
  }

  lemma {:induction false} Pow2Sum(i: nat, j: nat)
    ensures Pow2(i + j) == Pow2(i) * Pow2(j)
  {
    if i > 0 {
      Pow2Sum(i - 1, j);
      assert 2 * (Pow2(i - 1) * Pow2(j)) == (2 * Pow2(i - 1)) * Pow2(j);
    }
  }

  /** Every bit of a 32-bit word is copied to all places below it, in five steps of doubling width. */
  function SmearAll(v: nat): nat {
    var v := Or(v, Shr(v, 1));
    var v := Or(v, Shr(v, 2));
    var v := Or(v, Shr(v, 4));
    var v := Or(v, Shr(v, 8));
    Or(v, Shr(v, 16))
  }

  lemma SmearAllOnes(w: nat) returns (n: nat)
    requires w < UINT32
    ensures n <= 32 && w < Pow2(n) && SmearAll(w) == Pow2(n) - 1
    ensures n > 0 ==> Pow2(n - 1) <= w
  {
    if w == 0 {
      return 0;
    }
    n := TopBit(w);
    Pow2Values();
    if n > 32 {
      Pow2Monotone(32, n - 1);
    }
    Smear(w, n, 1);
    var v := Or(w, Shr(w, 1));
    Smear(v, n, 2);
    v := Or(v, Shr(v, 2));
    Smear(v, n, 4);
    v := Or(v, Shr(v, 4));
    Smear(v, n, 8);
    v := Or(v, Shr(v, 8));
    Smear(v, n, 16);
    AllOnes(SmearAll(w), n);
  }

  /** `next_pow2` on 32-bit words: decrement and increment wrap around. */
  function NextPow2(v: nat): nat
    requires v < UINT32
  {
    (SmearAll((v - 1) % UINT32) + 1) % UINT32
  }

  /** The smallest power of two that is not below `v`, or 0 when there is none in 32 bits or `v` is
      0. */
  lemma NextPow2IsSmallest(v: nat)
    requires v < UINT32
    ensures v == 0 || v > 0x8000_0000 ==> NextPow2(v) == 0
    ensures 0 < v <= 0x8000_0000 ==> IsPowerOfTwo(NextPow2(v)) && v <= NextPow2(v)
    ensures 0 < v <= 0x8000_0000 ==> forall k: nat :: v <= Pow2(k) ==> NextPow2(v) <= Pow2(k)
  {
    Pow2Values();
    var w := (v - 1) % UINT32;
    var n := SmearAllOnes(w);
    if n < 32 {
      Pow2Monotone(n, 31);
      forall k: nat | v <= Pow2(k) ensures w == v - 1 ==> Pow2(n) <= Pow2(k) {
        if k < n { Pow2Monotone(k, n - 1); } else { Pow2Monotone(n, k); }
      }
    }
  }

  /** `next_pow2` within the range in which it does not overflow. */
  method RoundUp(v: nat) returns (c: nat)
    requires 0 < v <= 0x8000_0000
    ensures c == NextPow2(v) && IsPowerOfTwo(c) && v <= c <= 0x8000_0000
  {
    NextPow2IsSmallest(v);
    Pow2Values();
    assert v <= Pow2(31);
    c := NextPow2(v);
  }
}
