/** What the plies of the IPv4 16-8-8 trie (nf/common/mtrie.c, nf/common/mtrie.h) mean.

    A trie has a root ply of 65536 slots, indexed by the upper half of the address.  All other plies
    have 256 slots and come from one pool shared by all tries.  A slot holds a leaf and a prefix
    length.  An odd leaf is terminal and carries an adjacency; an even one names a ply.

    `Pool` is a snapshot of the pool's arrays: slot `s` of ply `q` is at index `256 * q + s`.  `keys`
    is bookkeeping: the trie and the address prefix that each ply in use serves. */
module MultibitTrie {
  import opened Arithmetic
  import opened PowersOfTwo
  import opened LongestPrefixMatch

  datatype Key = Key(trie: nat, prefix: nat)

  datatype Pool = Pool(leaves: seq<nat>, bits: seq<nat>, nonEmpty: seq<int>, base: seq<nat>,
                       keys: seq<Key>)

  datatype Root = Root(leaves: seq<nat>, bits: seq<nat>)

  predicate Terminal(leaf: nat) {
    leaf % 2 == 1
  }

  predicate Shape(v: Pool) {
    && |v.leaves| == |v.bits| == 256 * |v.base|
    && |v.nonEmpty| == |v.base|
    && |v.keys| <= |v.base|
  }

  function SlotAt(v: Pool, q: nat, s: nat): Slot
    requires Shape(v) && q < |v.base| && s < 256
  {
    Slot(v.leaves[256 * q + s], v.bits[256 * q + s])
  }

  /** The slot reached from slot `s` of ply `q` when the last byte of the address is `low`. */
  function Via(v: Pool, q: nat, s: nat, low: nat): Slot
    requires Shape(v) && q < |v.base| && s < 256 && low < 256
  {
    var x := SlotAt(v, q, s);
    if Terminal(x.leaf) || x.leaf / 2 >= |v.base| then x else SlotAt(v, x.leaf / 2, low)
  }

  /** The slot that an address resolves to. */
  function Resolve(m: Root, v: Pool, a: nat): Slot
    requires Shape(v) && |m.leaves| == |m.bits| == 65536 && a < UINT32
  {
    var x := Slot(m.leaves[a / 65536], m.bits[a / 65536]);
    if Terminal(x.leaf) || x.leaf / 2 >= |v.base| then x
    else Via(v, x.leaf / 2, a / 256 % 256, a % 256)
  }

  // ---- Invariants

  ghost function NonEmptySlots(v: Pool, q: nat): set<nat>
    requires Shape(v) && q < |v.base|
  {
    set s: nat | s < 256 && SlotAt(v, q, s).bits > v.base[q]
  }

  /** A slot that names a ply holds the length of the prefix that this ply serves. */
  ghost predicate SlotOk(v: Pool, q: nat, s: nat)
    requires Shape(v) && q < |v.keys| && s < 256
  {
    var x := SlotAt(v, q, s);
    if Terminal(x.leaf) then x.bits <= v.base[q] + 8
    else
      var c := x.leaf / 2;
      && v.base[q] == 16 && x.bits == 24
      && c < |v.keys| && v.base[c] == 24
      && v.keys[c] == Key(v.keys[q].trie, 256 * v.keys[q].prefix + s)
  }

  ghost predicate PlyOk(v: Pool, q: nat)
    requires Shape(v) && q < |v.keys|
  {
    && (v.base[q] == 16 || v.base[q] == 24)
    && v.nonEmpty[q] == |NonEmptySlots(v, q)|
    && forall s: nat {:trigger SlotOk(v, q, s)} :: s < 256 ==> SlotOk(v, q, s)
  }

  ghost predicate PoolOk(v: Pool) {
    Shape(v) && forall q: nat {:trigger PlyOk(v, q)} :: q < |v.keys| ==> PlyOk(v, q)
  }

  ghost predicate RootSlotOk(m: Root, id: nat, v: Pool, s: nat)
    requires Shape(v) && |m.leaves| == |m.bits| == 65536 && s < 65536
  {
    if Terminal(m.leaves[s]) then m.bits[s] <= 16
    else
      var c := m.leaves[s] / 2;
      m.bits[s] == 16 && c < |v.keys| && v.base[c] == 16 && v.keys[c] == Key(id, s)
  }

  ghost predicate RootOk(m: Root, id: nat, v: Pool) {
    && Shape(v) && |m.leaves| == |m.bits| == 65536
    && forall s: nat {:trigger RootSlotOk(m, id, v, s)} :: s < 65536 ==> RootSlotOk(m, id, v, s)
  }

  /** A lookup always ends at a terminal leaf, after at most three array reads. */
  lemma ResolvesToTerminal(m: Root, id: nat, v: Pool, a: nat)
    requires PoolOk(v) && RootOk(m, id, v) && a < UINT32
    ensures Terminal(Resolve(m, v, a).leaf)
  {
    assert RootSlotOk(m, id, v, a / 65536);
    if !Terminal(m.leaves[a / 65536]) {
      ViaIsTerminal(v, m.leaves[a / 65536] / 2, a / 256 % 256, a % 256);
    }
  }

  lemma ViaIsTerminal(v: Pool, q: nat, s: nat, low: nat)
    requires PoolOk(v) && q < |v.keys| && s < 256 && low < 256
    ensures Terminal(Via(v, q, s, low).leaf)
    ensures v.base[q] == 24 ==> Terminal(SlotAt(v, q, s).leaf) && Via(v, q, s, low) == SlotAt(v, q, s)
  {
    assert PlyOk(v, q) && SlotOk(v, q, s);
    if !Terminal(SlotAt(v, q, s).leaf) {
      var c := SlotAt(v, q, s).leaf / 2;
      assert PlyOk(v, c) && SlotOk(v, c, low);
    }
  }

  // ---- What a change may touch

  /** Ply `c` serves slot `s` of ply `q`. */
  ghost predicate ChildOf(v: Pool, c: nat, q: nat, s: nat)
    requires Shape(v) && c < |v.keys| && q < |v.keys|
  {
    v.base[q] == 16 && v.base[c] == 24 && v.keys[c] == Key(v.keys[q].trie, 256 * v.keys[q].prefix + s)
  }

  /** Ply `c` is `q` or serves part of what `q` serves. */
  ghost predicate Under(v: Pool, c: nat, q: nat)
    requires Shape(v) && c < |v.keys| && q < |v.keys|
  {
    c == q || ChildOf(v, c, q, v.keys[c].prefix % 256)
  }

  ghost predicate SamePly(v: Pool, w: Pool, q: nat)
    requires Shape(v) && Shape(w) && q < |v.keys| && q < |w.keys|
  {
    && w.nonEmpty[q] == v.nonEmpty[q]
    && forall s: nat {:trigger SlotAt(w, q, s)} :: s < 256 ==> SlotAt(w, q, s) == SlotAt(v, q, s)
  }

  /** The slots of the ply that name plies still name the same ones. */
  ghost predicate StaysDeep(v: Pool, w: Pool, q: nat)
    requires Shape(v) && Shape(w) && q < |v.keys| && q < |w.keys|
  {
    forall s: nat {:trigger SlotAt(w, q, s)} ::
      s < 256 && !Terminal(SlotAt(v, q, s).leaf) ==> SlotAt(w, q, s).leaf == SlotAt(v, q, s).leaf
  }

  /** Plies are only added; those in use keep what they serve and stay where they are. */
  ghost predicate Grows(v: Pool, w: Pool) {
    && Shape(v) && Shape(w) && |w.base| == |v.base|
    && v.keys <= w.keys
    && (forall q: nat {:trigger w.base[q]} :: q < |v.keys| ==> w.base[q] == v.base[q])
    && forall q: nat {:trigger StaysDeep(v, w, q)} :: q < |v.keys| ==> StaysDeep(v, w, q)
  }

  lemma GrowsTransitive(u: Pool, v: Pool, w: Pool)
    requires Grows(u, v) && Grows(v, w)
    ensures Grows(u, w)
  {
    forall q: nat | q < |u.keys| ensures w.base[q] == u.base[q] && StaysDeep(u, w, q) {
      assert v.base[q] == u.base[q] && StaysDeep(u, v, q) && StaysDeep(v, w, q);
      forall s: nat | s < 256 && !Terminal(SlotAt(u, q, s).leaf)
        ensures SlotAt(w, q, s).leaf == SlotAt(u, q, s).leaf
      {
        assert SlotAt(v, q, s).leaf == SlotAt(u, q, s).leaf;
      }
    }
  }

  /** Only ply `q` and what hangs below it may change. */
  ghost predicate Within(v: Pool, w: Pool, q: nat)
    requires Shape(v) && q < |v.keys|
  {
    && Grows(v, w)
    && forall c: nat {:trigger SamePly(v, w, c)} ::
         c < |v.keys| && !Under(v, c, q) ==> SamePly(v, w, c)
  }

  /** Only slot `s` of ply `q` and what hangs below it may change. */
  ghost predicate WithinSlot(v: Pool, w: Pool, q: nat, s: nat)
    requires Shape(v) && q < |v.keys|
  {
    && Grows(v, w)
    && (forall c: nat {:trigger SamePly(v, w, c)} ::
          c < |v.keys| && c != q && !ChildOf(v, c, q, s) ==> SamePly(v, w, c))
    && forall t: nat {:trigger SlotAt(w, q, t)} ::
         t < 256 && t != s ==> SlotAt(w, q, t) == SlotAt(v, q, t)
  }

  /** Other slots of the ply resolve as before. */
  lemma OtherSlotsKeep(v: Pool, w: Pool, q: nat, s: nat, t: nat, low: nat)
    requires PoolOk(v) && q < |v.keys| && WithinSlot(v, w, q, s)
    requires s < 256 && t < 256 && t != s && low < 256
    ensures Via(w, q, t, low) == Via(v, q, t, low)
  {
    assert PlyOk(v, q) && SlotOk(v, q, t);
    if !Terminal(SlotAt(v, q, t).leaf) {
      var c := SlotAt(v, q, t).leaf / 2;
      assert SamePly(v, w, c);
    }
  }

  lemma WithinSlotIsWithin(u: Pool, v: Pool, w: Pool, q: nat, s: nat)
    requires Shape(u) && q < |u.keys| && s < 256 && Within(u, v, q)
    requires WithinSlot(v, w, q, s)
    ensures Within(u, w, q)
  {
    forall c: nat | c < |u.keys| && !Under(u, c, q) ensures SamePly(u, w, c) {
      assert SamePly(u, v, c);
      assert v.base[c] == u.base[c] && v.base[q] == u.base[q];
      assert SamePly(v, w, c);
    }
    GrowsTransitive(u, v, w);
  }

  /** A change within a ply hanging off slot `s` is a change within that slot. */
  lemma ChildIsWithinSlot(v: Pool, w: Pool, q: nat, s: nat, c: nat)
    requires PoolOk(v) && q < |v.keys| && s < 256 && c < |v.keys| && ChildOf(v, c, q, s)
    requires Within(v, w, c)
    ensures WithinSlot(v, w, q, s)
  {
    assert SamePly(v, w, q);
    forall d: nat | d < |v.keys| && d != q && !ChildOf(v, d, q, s) ensures SamePly(v, w, d) {
      assert d != c;
    }
  }

  // ---- Single writes

  /** Slot `s` of ply `q` overwritten, and the ply's count of non-empty slots set to `n`. */
  function Put(v: Pool, q: nat, s: nat, x: Slot, n: int): Pool
    requires Shape(v) && q < |v.base| && s < 256
  {
    v.(leaves := v.leaves[256 * q + s := x.leaf], bits := v.bits[256 * q + s := x.bits],
       nonEmpty := v.nonEmpty[q := n])
  }

  lemma PutSlots(v: Pool, q: nat, s: nat, x: Slot, n: int)
    requires Shape(v) && q < |v.base| && s < 256
    ensures Shape(Put(v, q, s, x, n))
    ensures forall p: nat, t: nat {:trigger SlotAt(Put(v, q, s, x, n), p, t)} ::
              p < |v.base| && t < 256 ==>
              SlotAt(Put(v, q, s, x, n), p, t) == if p == q && t == s then x else SlotAt(v, p, t)
  {
  }

  /** `ip4_fib_mtrie_leaf_is_non_empty`, as the number that the source adds and subtracts. */
  function IsNonEmpty(v: Pool, q: nat, x: Slot): int
    requires Shape(v) && q < |v.base|
  {
    if x.bits > v.base[q] then 1 else 0
  }

  lemma PutCount(v: Pool, q: nat, s: nat, x: Slot, n: int)
    requires Shape(v) && q < |v.base| && s < 256
    ensures Shape(Put(v, q, s, x, n))
    ensures |NonEmptySlots(Put(v, q, s, x, n), q)| ==
            |NonEmptySlots(v, q)| - IsNonEmpty(v, q, SlotAt(v, q, s)) + IsNonEmpty(v, q, x)
  {
    var w := Put(v, q, s, x, n);
    PutSlots(v, q, s, x, n);
    var before, after := NonEmptySlots(v, q), NonEmptySlots(w, q);
    assert before - {s} == after - {s};
    assert s in before ==> before == (before - {s}) + {s};
    assert s in after ==> after == (after - {s}) + {s};
    assert s !in before ==> before == before - {s};
    assert s !in after ==> after == after - {s};
  }

  /** What a write has to respect: that the slot names no ply, the count, and what a slot may hold. */
  lemma PutKeepsPoolOk(v: Pool, q: nat, s: nat, x: Slot, n: int)
    requires PoolOk(v) && q < |v.keys| && s < 256 && Terminal(SlotAt(v, q, s).leaf)
    requires n == v.nonEmpty[q] - IsNonEmpty(v, q, SlotAt(v, q, s)) + IsNonEmpty(v, q, x)
    requires Shape(Put(v, q, s, x, n)) && SlotOk(Put(v, q, s, x, n), q, s)
    ensures PoolOk(Put(v, q, s, x, n))
    ensures WithinSlot(v, Put(v, q, s, x, n), q, s)
  {
    var w := Put(v, q, s, x, n);
    PutSlots(v, q, s, x, n);
    forall p: nat | p < |v.keys| ensures PlyOk(w, p) {
      assert PlyOk(v, p);
      forall t: nat | t < 256 ensures SlotOk(w, p, t) {
        assert SlotOk(v, p, t);
      }
      if p == q {
        PutCount(v, q, s, x, n);
      } else {
        assert NonEmptySlots(w, p) == NonEmptySlots(v, p);
      }
    }
  }

  /** Ply number `c` set up by `ply_create`: every slot holds `x`. */
  ghost predicate Created(v: Pool, w: Pool, c: nat, base: nat, x: Slot, key: Key)
    requires Shape(v)
  {
    && Shape(w) && |w.base| == |v.base| && c == |v.keys| < |v.base|
    && w.keys == v.keys + [key]
    && w.base == v.base[c := base]
    && w.nonEmpty == v.nonEmpty[c := if x.bits > base then 256 else 0]
    && (forall p: nat, t: nat {:trigger SlotAt(w, p, t)} :: p < |v.base| && t < 256 ==>
          SlotAt(w, p, t) == if p == c then x else SlotAt(v, p, t))
  }

  lemma CreatedKeepsPoolOk(v: Pool, w: Pool, c: nat, base: nat, x: Slot, key: Key)
    requires PoolOk(v) && Created(v, w, c, base, x, key)
    requires (base == 16 || base == 24) && Terminal(x.leaf) && x.bits <= base
    ensures PoolOk(w) && Grows(v, w) && c < |w.keys| && PlyOk(w, c)
    ensures forall p: nat {:trigger SamePly(v, w, p)} :: p < |v.keys| ==> SamePly(v, w, p)
  {
    forall p: nat | p < |w.keys| ensures PlyOk(w, p) {
      if p < |v.keys| {
        assert PlyOk(v, p);
        assert NonEmptySlots(w, p) == NonEmptySlots(v, p);
        forall t: nat | t < 256 ensures SlotOk(w, p, t) {
          assert SlotOk(v, p, t);
        }
      } else {
        assert NonEmptySlots(w, p) == {};
        forall t: nat | t < 256 ensures SlotOk(w, p, t) {
        }
      }
    }
  }

  // ---- Addresses

  /** An address served by slot `s` of ply `q`; below a ply of depth 24 the last byte is `s`. */
  function Address(v: Pool, q: nat, s: nat, low: nat): nat
    requires Shape(v) && q < |v.keys|
  {
    if v.base[q] == 16 then 65536 * v.keys[q].prefix + 256 * s + low
    else 256 * v.keys[q].prefix + s
  }

  predicate InRegion(base: nat, prefix: nat, a: nat) {
    if base == 16 then a / 65536 == prefix else a / 256 == prefix
  }

  /** The route concerns the addresses that a ply of this depth and prefix serves: it covers them all,
      or its own addresses are among them. */
  ghost predicate Concerns(r: Route, base: nat, prefix: nat)
    requires r.len <= 32
  {
    && (base == 16 || base == 24)
    && if r.len <= base then
         forall a: nat {:trigger Covers(r, a)} :: InRegion(base, prefix, a) ==> Covers(r, a)
       else InRegion(base, prefix, Masked(r))
  }

  /** The first slot of a ply that the route fills, and the logarithm of how many it fills. */
  function FirstSlot(r: Route, base: nat): (s: nat)
    requires r.len <= 32
    ensures s < 256
  {
    if base == 16 then Masked(r) / 256 % 256 else Masked(r) % 256
  }

  function FillBits(r: Route, base: nat): (n: nat)
    requires r.len <= base + 8
    ensures n <= 8
  {
    if 8 < base + 8 - r.len then 8 else base + 8 - r.len
  }

  lemma AlignedFits(d: nat, p: nat, k: nat)
    requires p > 0 && k > 0 && d % p == 0
    ensures d % (p * k) + p <= p * k
  {
    var t := d / p;
    assert d == p * t && t == k * (t / k) + t % k;
    assert d == (p * k) * (t / k) + p * (t % k);
    ProductMonotone(t % k + 1, k, p);
    RemainderUnique(d, p * k, t / k, p * (t % k));
  }

  /** In units of `u` addresses, a route whose span is a multiple of the unit covers a range. */
  lemma CoversUnits(r: Route, u: nat, w: nat, x: nat, rest: nat)
    requires r.len <= 32 && u > 0 && w > 0 && Span(r.len) == u * w && rest < u
    ensures Masked(r) % u == 0 && Masked(r) / u % w == 0
    ensures Covers(r, u * x + rest) <==> Masked(r) / u <= x < Masked(r) / u + w
  {
    CoversIsRange(r, u * x + rest);
    var t := MaskedMultiple(r);
    UnitsDivide(Masked(r), u, w, t);
    UnitsRange(u, w, w * t, x, rest);
  }

  lemma MaskedMultiple(r: Route) returns (t: nat)
    requires r.len <= 32
    ensures Masked(r) == Span(r.len) * t
  {
    t := r.dst / Span(r.len);
  }

  lemma UnitsDivide(d: nat, u: nat, w: nat, t: nat)
    requires u > 0 && w > 0 && d == (u * w) * t
    ensures d == u * (w * t) && d % u == 0 && d / u == w * t && d / u % w == 0
  {
    assert (u * w) * t == u * (w * t);
    RemainderUnique(d, u, w * t, 0);
    RemainderUnique(w * t, w, t, 0);
  }

  lemma UnitsRange(u: nat, w: nat, y: nat, x: nat, rest: nat)
    requires rest < u
    ensures u * y <= u * x + rest < u * y + u * w <==> y <= x < y + w
  {
    UnitsCompare(u, y, x, rest);
    UnitsCompare(u, y + w, x, rest);
    assert u * (y + w) == u * y + u * w;
  }

  lemma UnitsCompare(u: nat, y: nat, x: nat, rest: nat)
    requires rest < u
    ensures u * y <= u * x + rest <==> y <= x
  {
    if y <= x {
      ProductMonotone(y, x, u);
    } else {
      ProductMonotone(x + 1, y, u);
    }
  }

  lemma SpanInUnits(len: nat, k: nat)
    requires len + k <= 32
    ensures Span(len) == Pow2(k) * Pow2(32 - len - k)
  {
    Pow2Sum(k, 32 - len - k);
  }

  lemma UnitValues()
    ensures Pow2(0) == 1 && Pow2(8) == 256 && Pow2(16) == 65536
  {
    assert Pow2(4) == 16;
  }

  /** The loop of `set_leaf` visits exactly the slots that the route covers. */
  lemma FilledSlotsAreCovered(v: Pool, q: nat, r: Route, s: nat, low: nat)
    requires Shape(v) && q < |v.keys| && r.len <= v.base[q] + 8 && r.len <= 32
    requires Concerns(r, v.base[q], v.keys[q].prefix) && s < 256 && low < 256
    ensures var first := FirstSlot(r, v.base[q]);
            && first + Pow2(FillBits(r, v.base[q])) <= 256
            && (first <= s < first + Pow2(FillBits(r, v.base[q])) <==>
                  Covers(r, Address(v, q, s, low)))
  {
    var base, prefix := v.base[q], v.keys[q].prefix;
    if r.len <= base {
      CoveringRouteFillsAll(r, base);
      assert InRegion(base, prefix, Address(v, q, s, low));
    } else if base == 16 {
      RouteFillsRange(r, 16, 256, prefix, s, low);
      assert 256 * (256 * prefix + s) + low == Address(v, q, s, low);
    } else {
      RouteFillsRange(r, 24, 1, prefix, s, 0);
    }
  }

  lemma CoveringRouteFillsAll(r: Route, base: nat)
    requires (base == 16 || base == 24) && r.len <= base
    ensures FirstSlot(r, base) == 0 && Pow2(FillBits(r, base)) == 256
  {
    var k := 32 - base;
    UnitValues();
    SpanInUnits(r.len, k);
    CoversUnits(r, Pow2(k), Pow2(base - r.len), 0, 0);
  }

  lemma RouteFillsRange(r: Route, base: nat, u: nat, prefix: nat, s: nat, rest: nat)
    requires (base == 16 && u == 256) || (base == 24 && u == 1)
    requires base < r.len <= base + 8 && InRegion(base, prefix, Masked(r)) && s < 256 && rest < u
    ensures var first, w := FirstSlot(r, base), Pow2(FillBits(r, base));
            && first + w <= 256
            && (first <= s < first + w <==> Covers(r, u * (256 * prefix + s) + rest))
  {
    var k := base + 8 - r.len;
    UnitValues();
    SpanInUnits(r.len, 24 - base);
    CoversUnits(r, u, Pow2(k), 256 * prefix + s, rest);
    Pow2Sum(k, 8 - k);
    var units := Masked(r) / u;
    AlignedFits(units, Pow2(k), Pow2(8 - k));
    assert units / 256 == prefix && FirstSlot(r, base) == units % 256;
  }

  /** A route that ends below the ply's last byte covers addresses of one slot only. */
  lemma DeepRouteStaysInSlot(v: Pool, q: nat, r: Route, s: nat, low: nat)
    requires Shape(v) && q < |v.keys| && v.base[q] == 16 && 24 < r.len <= 32
    requires Concerns(r, 16, v.keys[q].prefix) && s < 256 && low < 256
    requires s != FirstSlot(r, 16)
    ensures !Covers(r, Address(v, q, s, low))
  {
    var a, d := Address(v, q, s, low), Masked(r);
    CoversIsRange(r, a);
    DeepRouteFits(r);
    SameUnit(d, a, Span(r.len));
    assert d / 256 / 256 == d / 65536;
  }

  lemma SameUnit(d: nat, a: nat, span: nat)
    requires d % 256 + span <= 256
    ensures d <= a < d + span ==> a / 256 == d / 256
  {
  }

  lemma DeepRouteFits(r: Route)
    requires 24 < r.len <= 32
    ensures Masked(r) % 256 + Span(r.len) <= 256
  {
    var k := 32 - r.len;
    CoversIsRange(r, 0);
    UnitValues();
    Pow2Sum(k, 8 - k);
    AlignedFits(Masked(r), Pow2(k), Pow2(8 - k));
  }

  lemma DeepRouteConcernsChild(r: Route, prefix: nat)
    requires 24 < r.len <= 32 && Concerns(r, 16, prefix)
    ensures Concerns(r, 24, 256 * prefix + FirstSlot(r, 16))
  {
    assert Masked(r) / 256 / 256 == prefix;
  }

  // ---- Progress of an addition

  /** The addresses of slot `s` of ply `q` resolve as the route requires. */
  ghost predicate SlotImproved(v: Pool, w: Pool, q: nat, s: nat, r: Route)
    requires Shape(v) && Shape(w) && q < |v.keys| && q < |w.keys| && s < 256 && r.len <= 32
  {
    forall low: nat {:trigger Via(w, q, s, low)} :: low < 256 ==>
      Via(w, q, s, low) == Improve(r, Via(v, q, s, low), Address(v, q, s, low))
  }

  ghost predicate SlotKept(v: Pool, w: Pool, q: nat, s: nat)
    requires Shape(v) && Shape(w) && q < |v.keys| && q < |w.keys| && s < 256
  {
    && SlotAt(w, q, s) == SlotAt(v, q, s)
    && forall low: nat {:trigger Via(w, q, s, low)} :: low < 256 ==>
         Via(w, q, s, low) == Via(v, q, s, low)
  }

  /** The whole ply resolves as the route requires, and nothing else has changed. */
  ghost predicate Improved(v: Pool, w: Pool, q: nat, r: Route)
    requires Shape(v) && q < |v.keys| && r.len <= 32
  {
    && Within(v, w, q)
    && forall s: nat {:trigger SlotImproved(v, w, q, s, r)} :: s < 256 ==> SlotImproved(v, w, q, s, r)
  }

  /** A loop over slots from `lo` on has reached slot `i`. */
  ghost predicate Filled(v: Pool, w: Pool, q: nat, r: Route, lo: nat, i: nat)
    requires Shape(v) && q < |v.keys| && r.len <= 32
  {
    && Within(v, w, q)
    && (forall s: nat {:trigger SlotImproved(v, w, q, s, r)} ::
          s < 256 && lo <= s < i ==> SlotImproved(v, w, q, s, r))
    && (forall s: nat {:trigger SlotKept(v, w, q, s)} ::
          s < 256 && !(lo <= s < i) ==> SlotKept(v, w, q, s))
  }

  lemma FillNothing(v: Pool, q: nat, r: Route, lo: nat)
    requires Shape(v) && q < |v.keys| && r.len <= 32
    ensures Filled(v, v, q, r, lo, lo)
  {
  }

  lemma FillOneMore(u: Pool, v: Pool, w: Pool, q: nat, r: Route, lo: nat, i: nat)
    requires PoolOk(u) && PoolOk(v) && q < |u.keys| && r.len <= 32 && lo <= i < 256
    requires Filled(u, v, q, r, lo, i)
    requires WithinSlot(v, w, q, i) && SlotImproved(v, w, q, i, r)
    ensures Filled(u, w, q, r, lo, i + 1)
  {
    WithinSlotIsWithin(u, v, w, q, i);
    assert v.base[q] == u.base[q] && v.keys[q] == u.keys[q];
    assert SlotKept(u, v, q, i);
    forall s: nat | s < 256 && s != i
      ensures forall low: nat {:trigger Via(w, q, s, low)} ::
                low < 256 ==> Via(w, q, s, low) == Via(v, q, s, low)
      ensures SlotAt(w, q, s) == SlotAt(v, q, s)
    {
      forall low: nat | low < 256 ensures Via(w, q, s, low) == Via(v, q, s, low) {
        OtherSlotsKeep(v, w, q, i, s, low);
      }
    }
    forall s: nat | s < 256 && lo <= s < i + 1 ensures SlotImproved(u, w, q, s, r) {
      assert s != i ==> SlotImproved(u, v, q, s, r);
    }
    forall s: nat | s < 256 && !(lo <= s < i + 1) ensures SlotKept(u, w, q, s) {
      assert SlotKept(u, v, q, s);
    }
  }

  lemma FillDone(v: Pool, w: Pool, q: nat, r: Route)
    requires PoolOk(v) && q < |v.keys| && r.len <= v.base[q] + 8 && r.len <= 32
    requires Concerns(r, v.base[q], v.keys[q].prefix)
    requires var first := FirstSlot(r, v.base[q]);
             Filled(v, w, q, r, first, first + Pow2(FillBits(r, v.base[q])))
    ensures Improved(v, w, q, r)
  {
    var first := FirstSlot(r, v.base[q]);
    var end := first + Pow2(FillBits(r, v.base[q]));
    forall s: nat | s < 256 && !(first <= s < end) ensures SlotImproved(v, w, q, s, r) {
      assert SlotKept(v, w, q, s);
      forall low: nat | low < 256 ensures !Covers(r, Address(v, q, s, low)) {
        FilledSlotsAreCovered(v, q, r, s, low);
      }
    }
  }

  /** Improving the ply behind a slot improves the slot. */
  lemma ChildImproved(v: Pool, w: Pool, q: nat, s: nat, r: Route)
    requires PoolOk(v) && PoolOk(w) && q < |v.keys| && s < 256 && r.len <= 32
    requires !Terminal(SlotAt(v, q, s).leaf) && SlotAt(v, q, s).leaf / 2 < |v.keys|
    requires Improved(v, w, SlotAt(v, q, s).leaf / 2, r)
    ensures WithinSlot(v, w, q, s) && SlotImproved(v, w, q, s, r)
  {
    assert PlyOk(v, q) && SlotOk(v, q, s);
    var c := SlotAt(v, q, s).leaf / 2;
    ChildIsWithinSlot(v, w, q, s, c);
    assert SamePly(v, w, q) && w.base[c] == 24;
    forall low: nat | low < 256
      ensures Via(w, q, s, low) == Improve(r, Via(v, q, s, low), Address(v, q, s, low))
    {
      assert SlotImproved(v, w, c, low, r);
      ViaIsTerminal(v, c, low, low);
      ViaIsTerminal(w, c, low, low);
    }
  }

  /** The two ways in which a slot with a terminal leaf meets the route. */
  lemma TerminalImproved(v: Pool, q: nat, s: nat, r: Route, n: int)
    requires PoolOk(v) && q < |v.keys| && s < 256 && r.len <= 32
    requires Terminal(SlotAt(v, q, s).leaf)
    requires forall low: nat :: low < 256 ==> Covers(r, Address(v, q, s, low))
    ensures r.len < SlotAt(v, q, s).bits ==> SlotImproved(v, v, q, s, r)
    ensures r.len >= SlotAt(v, q, s).bits ==>
              var w := Put(v, q, s, Slot(TerminalLeaf(r.adj), r.len), n);
              Shape(w) && SlotImproved(v, w, q, s, r)
  {
    PutSlots(v, q, s, Slot(TerminalLeaf(r.adj), r.len), n);
  }

  // ---- A new ply behind a slot

  /** Every slot of the ply resolves as before. */
  ghost predicate SameView(v: Pool, w: Pool, q: nat)
    requires Shape(v) && Shape(w) && q < |v.keys| && q < |w.keys|
  {
    forall s: nat, low: nat {:trigger Via(w, q, s, low)} :: s < 256 && low < 256 ==>
      Via(w, q, s, low) == Via(v, q, s, low)
  }

  /** Hanging a fresh ply, filled with the slot's own leaf, off a slot changes no lookup.  `u` is the
      pool right after the creation, with the count of ply `q` not settled yet. */
  lemma Deepen(v: Pool, u: Pool, q: nat, s: nat)
    requires PoolOk(v) && q < |v.keys| && s < 256 && v.base[q] == 16
    requires Terminal(SlotAt(v, q, s).leaf)
    requires var x := SlotAt(v, q, s);
             Created(v.(nonEmpty := v.nonEmpty[q := v.nonEmpty[q] - IsNonEmpty(v, q, x)]), u,
                     |v.keys|, 24, x, Key(v.keys[q].trie, 256 * v.keys[q].prefix + s))
    ensures var w := Put(u, q, s, Slot(2 * |v.keys|, 24), u.nonEmpty[q] + 1);
            && PoolOk(w) && |w.keys| == |v.keys| + 1
            && WithinSlot(v, w, q, s) && SameView(v, w, q)
            && SlotAt(w, q, s) == Slot(2 * |v.keys|, 24)
            && (forall t: nat :: t < 256 ==> Terminal(SlotAt(w, |v.keys|, t).leaf))
  {
    assert PlyOk(v, q) && SlotOk(v, q, s);
    var x, c := SlotAt(v, q, s), |v.keys|;
    var key := Key(v.keys[q].trie, 256 * v.keys[q].prefix + s);
    var u' := u.(nonEmpty := u.nonEmpty[q := v.nonEmpty[q]]);
    SameCounts(v, u, u', q, x, key);
    CreatedKeepsPoolOk(v, u', c, 24, x, key);
    var w := Put(u, q, s, Slot(2 * c, 24), u.nonEmpty[q] + 1);
    assert w == Put(u', q, s, Slot(2 * c, 24), u.nonEmpty[q] + 1);
    PutSlots(u', q, s, Slot(2 * c, 24), u.nonEmpty[q] + 1);
    assert SamePly(v, u', q) && u'.base[q] == v.base[q];
    assert SlotOk(w, q, s);
    PutKeepsPoolOk(u', q, s, Slot(2 * c, 24), u.nonEmpty[q] + 1);
    assert WithinSlot(v, w, q, s) by {
      forall d: nat | d < |v.keys| && d != q ensures SamePly(v, w, d) {
        assert SamePly(v, u', d) && SamePly(u', w, d);
      }
    }
    forall t: nat, low: nat | t < 256 && low < 256 ensures Via(w, q, t, low) == Via(v, q, t, low) {
      if t != s {
        OtherSlotsKeep(v, w, q, s, t, low);
      }
    }
  }

  lemma SameCounts(v: Pool, u: Pool, u': Pool, q: nat, x: Slot, key: Key)
    requires Shape(v) && q < |v.keys| && 0 <= x.bits
    requires Created(v.(nonEmpty := v.nonEmpty[q := v.nonEmpty[q] - IsNonEmpty(v, q, x)]), u,
                     |v.keys|, 24, x, key)
    requires u' == u.(nonEmpty := u.nonEmpty[q := v.nonEmpty[q]])
    ensures Created(v, u', |v.keys|, 24, x, key)
  {
    var v0 := v.(nonEmpty := v.nonEmpty[q := v.nonEmpty[q] - IsNonEmpty(v, q, x)]);
    forall p: nat, t: nat | p < |v.base| && t < 256
      ensures SlotAt(u', p, t) == if p == |v.keys| then x else SlotAt(v, p, t)
    {
      assert SlotAt(u, p, t) == if p == |v.keys| then x else SlotAt(v0, p, t);
    }
  }

  /** After the descent through the slot that holds the route's address, the whole ply is improved. */
  lemma DescentDone(v: Pool, u: Pool, w: Pool, q: nat, r: Route)
    requires PoolOk(v) && PoolOk(u) && q < |v.keys| && v.base[q] == 16 && 24 < r.len <= 32
    requires Concerns(r, 16, v.keys[q].prefix)
    requires Within(v, u, q) && SameView(v, u, q)
    requires WithinSlot(u, w, q, FirstSlot(r, 16)) && SlotImproved(u, w, q, FirstSlot(r, 16), r)
    ensures Improved(v, w, q, r)
  {
    var first := FirstSlot(r, 16);
    WithinSlotIsWithin(v, u, w, q, first);
    assert u.base[q] == v.base[q];
    forall s: nat | s < 256 ensures SlotImproved(v, w, q, s, r) {
      forall low: nat | low < 256
        ensures Via(w, q, s, low) == Improve(r, Via(v, q, s, low), Address(v, q, s, low))
      {
        assert Via(u, q, s, low) == Via(v, q, s, low);
        if s != first {
          OtherSlotsKeep(u, w, q, first, s, low);
          DeepRouteStaysInSlot(v, q, r, s, low);
        }
      }
    }
  }

  /** How many plies an addition takes below ply `q`. */
  function PliesBelow(v: Pool, q: nat, r: Route): nat
    requires Shape(v) && q < |v.base| && r.len <= 32
  {
    if v.base[q] == 16 && r.len > 24 && Terminal(SlotAt(v, q, FirstSlot(r, 16)).leaf) then 1 else 0
  }

  // ---- The root

  function RootAddress(s: nat, mid: nat, low: nat): nat {
    65536 * s + 256 * mid + low
  }

  function ViaRoot(m: Root, v: Pool, s: nat, mid: nat, low: nat): Slot
    requires Shape(v) && |m.leaves| == |m.bits| == 65536 && s < 65536 && mid < 256 && low < 256
  {
    var x := Slot(m.leaves[s], m.bits[s]);
    if Terminal(x.leaf) || x.leaf / 2 >= |v.base| then x else Via(v, x.leaf / 2, mid, low)
  }

  lemma AddressBytes(a: nat)
    ensures a == RootAddress(a / 65536, a / 256 % 256, a % 256)
  {
    var h := a / 256;
    RemainderUnique(a, 65536, h / 256, 256 * (h % 256) + a % 256);
  }

  lemma ResolveByBytes(m: Root, v: Pool, a: nat)
    requires Shape(v) && |m.leaves| == |m.bits| == 65536 && a < UINT32
    ensures a / 65536 < 65536 && a == RootAddress(a / 65536, a / 256 % 256, a % 256)
    ensures Resolve(m, v, a) == ViaRoot(m, v, a / 65536, a / 256 % 256, a % 256)
  {
    AddressBytes(a);
  }

  /** Ply `c` serves part of root slot `s` of the trie. */
  ghost predicate RootChild(v: Pool, c: nat, id: nat, s: nat)
    requires Shape(v) && c < |v.keys|
  {
    && v.keys[c].trie == id
    && if v.base[c] == 16 then v.keys[c].prefix == s else v.keys[c].prefix / 256 == s
  }

  ghost predicate WithinRootSlot(v: Pool, w: Pool, id: nat, s: nat)
    requires Shape(v)
  {
    && Grows(v, w)
    && forall c: nat {:trigger SamePly(v, w, c)} ::
         c < |v.keys| && !RootChild(v, c, id, s) ==> SamePly(v, w, c)
  }

  /** Only plies of this trie may change. */
  ghost predicate WithinTrie(v: Pool, w: Pool, id: nat)
    requires Shape(v)
  {
    && Grows(v, w)
    && forall c: nat {:trigger SamePly(v, w, c)} ::
         c < |v.keys| && v.keys[c].trie != id ==> SamePly(v, w, c)
  }

  lemma WithinTrieTransitive(u: Pool, v: Pool, w: Pool, id: nat)
    requires Shape(u) && WithinTrie(u, v, id) && WithinTrie(v, w, id)
    ensures WithinTrie(u, w, id)
  {
    GrowsTransitive(u, v, w);
    forall c: nat | c < |u.keys| && u.keys[c].trie != id ensures SamePly(u, w, c) {
      assert SamePly(u, v, c) && SamePly(v, w, c);
    }
  }

  lemma RootOkGrows(m: Root, id: nat, v: Pool, w: Pool)
    requires RootOk(m, id, v) && Grows(v, w)
    ensures RootOk(m, id, w)
  {
    forall s: nat | s < 65536 ensures RootSlotOk(m, id, w, s) {
      assert RootSlotOk(m, id, v, s);
      if !Terminal(m.leaves[s]) {
        assert w.base[m.leaves[s] / 2] == v.base[m.leaves[s] / 2];
      }
    }
  }

  lemma OtherRootSlotsKeep(m: Root, id: nat, v: Pool, w: Pool, i: nat, s: nat, mid: nat, low: nat)
    requires PoolOk(v) && RootOk(m, id, v) && WithinRootSlot(v, w, id, i)
    requires s < 65536 && s != i && mid < 256 && low < 256
    ensures ViaRoot(m, w, s, mid, low) == ViaRoot(m, v, s, mid, low)
  {
    assert RootSlotOk(m, id, v, s);
    if !Terminal(m.leaves[s]) {
      var c := m.leaves[s] / 2;
      assert SamePly(v, w, c);
      assert PlyOk(v, c) && SlotOk(v, c, mid);
      if !Terminal(SlotAt(v, c, mid).leaf) {
        assert SamePly(v, w, SlotAt(v, c, mid).leaf / 2);
      }
    }
  }

  /** Another trie on the same pool is not affected. */
  lemma OtherTrieKeeps(m: Root, id: nat, v: Pool, w: Pool, other: nat, a: nat)
    requires PoolOk(v) && RootOk(m, id, v) && WithinTrie(v, w, other) && other != id && a < UINT32
    ensures RootOk(m, id, w) && Resolve(m, w, a) == Resolve(m, v, a)
  {
    RootOkGrows(m, id, v, w);
    assert RootSlotOk(m, id, v, a / 65536);
    if !Terminal(m.leaves[a / 65536]) {
      var c, mid := m.leaves[a / 65536] / 2, a / 256 % 256;
      assert SamePly(v, w, c);
      assert PlyOk(v, c) && SlotOk(v, c, mid);
      if !Terminal(SlotAt(v, c, mid).leaf) {
        assert SamePly(v, w, SlotAt(v, c, mid).leaf / 2);
      }
    }
  }

  ghost predicate RootSlotImproved(m: Root, v: Pool, n: Root, w: Pool, s: nat, r: Route)
    requires Shape(v) && |m.leaves| == |m.bits| == 65536
    requires Shape(w) && |n.leaves| == |n.bits| == 65536 && s < 65536 && r.len <= 32
  {
    forall mid: nat, low: nat {:trigger ViaRoot(n, w, s, mid, low)} :: mid < 256 && low < 256 ==>
      ViaRoot(n, w, s, mid, low) ==
      Improve(r, ViaRoot(m, v, s, mid, low), RootAddress(s, mid, low))
  }

  ghost predicate RootSlotKept(m: Root, v: Pool, n: Root, w: Pool, s: nat)
    requires Shape(v) && |m.leaves| == |m.bits| == 65536
    requires Shape(w) && |n.leaves| == |n.bits| == 65536 && s < 65536
  {
    && n.leaves[s] == m.leaves[s] && n.bits[s] == m.bits[s]
    && forall mid: nat, low: nat {:trigger ViaRoot(n, w, s, mid, low)} :: mid < 256 && low < 256 ==>
         ViaRoot(n, w, s, mid, low) == ViaRoot(m, v, s, mid, low)
  }

  /** The loop of `set_root_leaf` from slot `lo` on has reached slot `i`. */
  ghost predicate RootFilled(m: Root, v: Pool, n: Root, w: Pool, id: nat, r: Route, lo: nat, i: nat)
    requires Shape(v) && |m.leaves| == |m.bits| == 65536 && |n.leaves| == |n.bits| == 65536
    requires r.len <= 32
  {
    && WithinTrie(v, w, id)
    && (forall s: nat {:trigger RootSlotImproved(m, v, n, w, s, r)} ::
          s < 65536 && lo <= s < i ==> RootSlotImproved(m, v, n, w, s, r))
    && (forall s: nat {:trigger RootSlotKept(m, v, n, w, s)} ::
          s < 65536 && !(lo <= s < i) ==> RootSlotKept(m, v, n, w, s))
  }

  /** One iteration: from `n`, `u` to `n'`, `w`. */
  lemma RootFillOneMore(m: Root, v: Pool, n: Root, u: Pool, n': Root, w: Pool,
                        id: nat, r: Route, lo: nat, i: nat)
    requires PoolOk(v) && PoolOk(u) && RootOk(m, id, v) && RootOk(n, id, u) && RootOk(n', id, w)
    requires r.len <= 32 && lo <= i < 65536
    requires RootFilled(m, v, n, u, id, r, lo, i)
    requires WithinRootSlot(u, w, id, i) && RootSlotImproved(n, u, n', w, i, r)
    requires n'.leaves == n.leaves[i := n'.leaves[i]] && n'.bits == n.bits[i := n'.bits[i]]
    ensures RootFilled(m, v, n', w, id, r, lo, i + 1)
  {
    WithinTrieTransitive(v, u, w, id);
    assert RootSlotKept(m, v, n, u, i);
    forall s: nat, mid: nat, low: nat {:trigger ViaRoot(n', w, s, mid, low)}
      | s < 65536 && s != i && mid < 256 && low < 256
      ensures ViaRoot(n', w, s, mid, low) == ViaRoot(n, u, s, mid, low)
    {
      OtherRootSlotsKeep(n, id, u, w, i, s, mid, low);
    }
    forall s: nat | s < 65536 && lo <= s < i + 1 ensures RootSlotImproved(m, v, n', w, s, r) {
      assert s != i ==> RootSlotImproved(m, v, n, u, s, r);
    }
    forall s: nat | s < 65536 && !(lo <= s < i + 1) ensures RootSlotKept(m, v, n', w, s) {
      assert RootSlotKept(m, v, n, u, s);
    }
  }

  /** Improving the ply behind a root slot improves the slot. */
  lemma RootChildImproved(m: Root, id: nat, v: Pool, w: Pool, s: nat, r: Route)
    requires PoolOk(v) && RootOk(m, id, v) && s < 65536 && r.len <= 32
    requires !Terminal(m.leaves[s]) && m.leaves[s] / 2 < |v.keys|
    requires Improved(v, w, m.leaves[s] / 2, r)
    ensures WithinRootSlot(v, w, id, s) && RootSlotImproved(m, v, m, w, s, r)
  {
    assert RootSlotOk(m, id, v, s);
    var c := m.leaves[s] / 2;
    forall d: nat | d < |v.keys| && !RootChild(v, d, id, s) ensures SamePly(v, w, d) {
      assert !Under(v, d, c);
    }
    forall mid: nat, low: nat | mid < 256 && low < 256
      ensures ViaRoot(m, w, s, mid, low) ==
              Improve(r, ViaRoot(m, v, s, mid, low), RootAddress(s, mid, low))
    {
      assert SlotImproved(v, w, c, mid, r);
    }
  }

  /** A route of at most 16 bits covers exactly the root slots that the loop fills. */
  lemma RootSlotsAreCovered(r: Route, s: nat, mid: nat, low: nat)
    requires IsRoute(r) && r.len <= 16 && s < 65536 && mid < 256 && low < 256
    ensures var first, w := Masked(r) / 65536, Pow2(16 - r.len);
            first + w <= 65536 && (first <= s < first + w <==> Covers(r, RootAddress(s, mid, low)))
  {
    var k := 16 - r.len;
    UnitValues();
    SpanInUnits(r.len, 16);
    CoversUnits(r, 65536, Pow2(k), s, 256 * mid + low);
    Pow2Sum(k, 16 - k);
    AlignedFits(Masked(r) / 65536, Pow2(k), Pow2(16 - k));
  }

  /** A longer route covers addresses of one root slot only, and concerns the ply behind it. */
  lemma LongRouteStaysInRootSlot(r: Route, s: nat, mid: nat, low: nat)
    requires IsRoute(r) && 16 < r.len && s < 65536 && mid < 256 && low < 256
    ensures Masked(r) / 65536 < 65536
    ensures s != Masked(r) / 65536 ==> !Covers(r, RootAddress(s, mid, low))
  {
    CoversIsRange(r, RootAddress(s, mid, low));
    LongRouteFits(r);
    SameRootUnit(Masked(r), RootAddress(s, mid, low), Span(r.len));
  }

  lemma LongRouteFits(r: Route)
    requires 16 < r.len <= 32
    ensures Masked(r) % 65536 + Span(r.len) <= 65536
  {
    var k := 32 - r.len;
    CoversIsRange(r, 0);
    UnitValues();
    Pow2Sum(k, 16 - k);
    AlignedFits(Masked(r), Pow2(k), Pow2(16 - k));
  }

  lemma SameRootUnit(d: nat, a: nat, span: nat)
    requires d % 65536 + span <= 65536
    ensures d <= a < d + span ==> a / 65536 == d / 65536
  {
  }

  /** The whole trie resolves as the route requires. */
  ghost predicate TrieImproved(m: Root, v: Pool, n: Root, w: Pool, r: Route)
    requires Shape(v) && |m.leaves| == |m.bits| == 65536
    requires Shape(w) && |n.leaves| == |n.bits| == 65536 && r.len <= 32
  {
    forall a: nat {:trigger Resolve(n, w, a)} :: a < UINT32 ==>
      Resolve(n, w, a) == Improve(r, Resolve(m, v, a), a)
  }

  lemma RootFillDone(m: Root, v: Pool, n: Root, w: Pool, id: nat, r: Route)
    requires Shape(v) && |m.leaves| == |m.bits| == 65536 && |n.leaves| == |n.bits| == 65536
    requires IsRoute(r) && r.len <= 16
    requires var first := Masked(r) / 65536;
             RootFilled(m, v, n, w, id, r, first, first + Pow2(16 - r.len))
    ensures TrieImproved(m, v, n, w, r)
  {
    var first := Masked(r) / 65536;
    forall a: nat | a < UINT32 ensures Resolve(n, w, a) == Improve(r, Resolve(m, v, a), a) {
      var s, mid, low := a / 65536, a / 256 % 256, a % 256;
      ResolveByBytes(m, v, a);
      ResolveByBytes(n, w, a);
      RootSlotsAreCovered(r, s, mid, low);
      if first <= s < first + Pow2(16 - r.len) {
        assert RootSlotImproved(m, v, n, w, s, r);
      } else {
        assert RootSlotKept(m, v, n, w, s);
      }
    }
  }

  /** Hanging a fresh ply, filled with the slot's own leaf, off a root slot changes no lookup. */
  lemma RootDeepen(m: Root, id: nat, v: Pool, w: Pool, s: nat)
    requires PoolOk(v) && RootOk(m, id, v) && s < 65536 && Terminal(m.leaves[s])
    requires Created(v, w, |v.keys|, 16, Slot(m.leaves[s], m.bits[s]), Key(id, s))
    ensures var n := Root(m.leaves[s := 2 * |v.keys|], m.bits[s := 16]);
            && PoolOk(w) && RootOk(n, id, w) && WithinTrie(v, w, id)
            && (forall t: nat :: t < 256 ==> Terminal(SlotAt(w, |v.keys|, t).leaf))
            && (forall a: nat {:trigger Resolve(n, w, a)} :: a < UINT32 ==>
                  Resolve(n, w, a) == Resolve(m, v, a))
  {
    assert RootSlotOk(m, id, v, s);
    var x, c := Slot(m.leaves[s], m.bits[s]), |v.keys|;
    CreatedKeepsPoolOk(v, w, c, 16, x, Key(id, s));
    RootOkGrows(m, id, v, w);
    var n := Root(m.leaves[s := 2 * c], m.bits[s := 16]);
    forall t: nat | t < 65536 ensures RootSlotOk(n, id, w, t) {
      assert RootSlotOk(m, id, w, t);
    }
    forall d: nat | d < |v.keys| ensures SamePly(v, w, d) {
      assert PlyOk(v, d);
    }
    forall a: nat | a < UINT32 ensures Resolve(n, w, a) == Resolve(m, v, a) {
      var t := a / 65536;
      if t != s {
        OtherRootSlotsKeep(m, id, v, w, s, t, a / 256 % 256, a % 256);
        assert Resolve(m, w, a) == ViaRoot(m, w, t, a / 256 % 256, a % 256);
        assert Resolve(m, v, a) == ViaRoot(m, v, t, a / 256 % 256, a % 256);
      }
    }
  }

  lemma RootDescentDone(m: Root, v: Pool, n: Root, u: Pool, w: Pool, id: nat, r: Route)
    requires PoolOk(u) && RootOk(n, id, u) && Shape(v) && |m.leaves| == |m.bits| == 65536
    requires IsRoute(r) && 16 < r.len && Masked(r) / 65536 < 65536
    requires forall a: nat {:trigger Resolve(n, u, a)} :: a < UINT32 ==>
               Resolve(n, u, a) == Resolve(m, v, a)
    requires WithinRootSlot(u, w, id, Masked(r) / 65536)
    requires RootSlotImproved(n, u, n, w, Masked(r) / 65536, r)
    ensures TrieImproved(m, v, n, w, r)
  {
    var first := Masked(r) / 65536;
    forall a: nat | a < UINT32 ensures Resolve(n, w, a) == Improve(r, Resolve(m, v, a), a) {
      var s, mid, low := a / 65536, a / 256 % 256, a % 256;
      ResolveByBytes(n, u, a);
      ResolveByBytes(n, w, a);
      LongRouteStaysInRootSlot(r, s, mid, low);
      if s != first {
        OtherRootSlotsKeep(n, id, u, w, first, s, mid, low);
      }
    }
  }

  /** How many plies an addition takes from the pool. */
  function PliesNeeded(m: Root, v: Pool, r: Route): (n: nat)
    requires Shape(v) && |m.leaves| == |m.bits| == 65536 && IsRoute(r)
    ensures n <= 2 && (r.len <= 16 ==> n == 0)
  {
    var s := r.dst / 65536;
    if r.len <= 16 then 0
    else if Terminal(m.leaves[s]) then (if r.len > 24 then 2 else 1)
    else if m.leaves[s] / 2 < |v.base| then PliesBelow(v, m.leaves[s] / 2, r)
    else 0
  }

  // ---- Which plies there are

  /** The ply serves the addresses of the route, and is one that the route needs. */
  ghost predicate OnPath(v: Pool, c: nat, id: nat, r: Route)
    requires Shape(v) && c < |v.keys|
  {
    && v.keys[c].trie == id
    && if v.base[c] == 16 then r.len > 16 && v.keys[c].prefix == r.dst / 65536
       else v.base[c] == 24 && r.len > 24 && v.keys[c].prefix == r.dst / 256
  }

  /** All new plies are ones that the route needs. */
  ghost predicate NewOnPath(v: Pool, w: Pool, id: nat, r: Route)
    requires Shape(w)
  {
    forall c: nat {:trigger OnPath(w, c, id, r)} :: |v.keys| <= c < |w.keys| ==> OnPath(w, c, id, r)
  }

  /** The ply behind the slot that a longer route goes through is there. */
  ghost predicate DeepBelow(v: Pool, q: nat, r: Route)
    requires Shape(v) && q < |v.keys|
  {
    v.base[q] == 16 && r.len > 24 ==> !Terminal(SlotAt(v, q, r.dst / 256 % 256).leaf)
  }

  /** All plies that the route needs are there. */
  ghost predicate PathDeep(m: Root, v: Pool, r: Route)
    requires Shape(v) && |m.leaves| == |m.bits| == 65536 && IsRoute(r)
  {
    r.len > 16 ==>
      var leaf := m.leaves[r.dst / 65536];
      !Terminal(leaf) && leaf / 2 < |v.keys| && DeepBelow(v, leaf / 2, r)
  }

  /** The descent through a slot of ply `q`, which has been given a ply in `u` if it had none. */
  lemma DescentPath(v: Pool, u: Pool, w: Pool, q: nat, r: Route)
    requires PoolOk(v) && PoolOk(u) && PoolOk(w) && Grows(v, u) && Grows(u, w) && q < |v.keys| && v.base[q] == 16
    requires r.len <= 32 && 24 < r.len && Masked(r) == r.dst && Concerns(r, 16, v.keys[q].prefix)
    requires !Terminal(SlotAt(u, q, r.dst / 256 % 256).leaf) && |w.keys| == |u.keys|
    requires |u.keys| == |v.keys|
             || (|u.keys| == |v.keys| + 1 && SlotAt(u, q, r.dst / 256 % 256) == Slot(2 * |v.keys|, 24))
    ensures NewOnPath(v, w, v.keys[q].trie, r) && DeepBelow(w, q, r)
  {
    var s := r.dst / 256 % 256;
    assert u.base[q] == v.base[q] && w.base[q] == u.base[q];
    assert StaysDeep(u, w, q);
    assert SlotAt(w, q, s).leaf == SlotAt(u, q, s).leaf;
    assert r.dst / 256 / 256 == r.dst / 65536;
    assert PlyOk(w, q) && SlotOk(w, q, s);
  }

  /** The root slots that name plies still name the same ones. */
  ghost predicate RootStaysDeep(m: Root, n: Root) {
    && |m.leaves| == |n.leaves|
    && forall s: nat {:trigger n.leaves[s]} :: s < |m.leaves| && !Terminal(m.leaves[s]) ==> n.leaves[s] == m.leaves[s]
  }

  /** The descent through root slot `s`, which has been given a ply in `u` if it had none. */
  lemma RootDescentPath(v: Pool, n: Root, u: Pool, w: Pool, id: nat, r: Route)
    requires Shape(v) && PoolOk(u) && PoolOk(w) && RootOk(n, id, u) && Grows(u, w) && IsRoute(r) && r.len > 16
    requires |u.keys| == |v.keys|
             || (|u.keys| == |v.keys| + 1 && n.leaves[r.dst / 65536] == 2 * |v.keys|)
    requires var leaf := n.leaves[r.dst / 65536];
             !Terminal(leaf) && leaf / 2 < |u.keys| && DeepBelow(w, leaf / 2, r)
    requires NewOnPath(u, w, id, r)
    ensures NewOnPath(v, w, id, r) && PathDeep(n, w, r)
  {
    assert RootSlotOk(n, id, u, r.dst / 65536);
    forall c: nat | |v.keys| <= c < |w.keys| ensures OnPath(w, c, id, r) {
      if c < |u.keys| {
        assert w.base[c] == u.base[c];
      }
    }
  }

  /** The whole effect of the descent: `n` and `u` are root and pool after the slot has been given a ply. */
  lemma RootDescentOk(m: Root, v: Pool, n: Root, u: Pool, w: Pool, id: nat, r: Route)
    requires PoolOk(v) && PoolOk(u) && PoolOk(w) && RootOk(m, id, v) && RootOk(n, id, u)
    requires IsRoute(r) && r.len > 16 && Masked(r) == r.dst
    requires forall a: nat {:trigger Resolve(n, u, a)} :: a < UINT32 ==> Resolve(n, u, a) == Resolve(m, v, a)
    requires |u.keys| == |v.keys|
             || (|u.keys| == |v.keys| + 1 && n.leaves[r.dst / 65536] == 2 * |v.keys|)
    requires WithinTrie(v, u, id)
    requires var leaf := n.leaves[r.dst / 65536];
             !Terminal(leaf) && leaf / 2 < |u.keys| && Improved(u, w, leaf / 2, r) && DeepBelow(w, leaf / 2, r)
    requires NewOnPath(u, w, id, r)
    ensures RootOk(n, id, w) && TrieImproved(m, v, n, w, r) && WithinTrie(v, w, id)
    ensures NewOnPath(v, w, id, r) && PathDeep(n, w, r)
  {
    var s := r.dst / 65536;
    RootOkGrows(n, id, u, w);
    RootChildImproved(n, id, u, w, s, r);
    RootDescentDone(m, v, n, u, w, id, r);
    WithinRootSlotIsWithinTrie(u, w, id, s);
    WithinTrieTransitive(v, u, w, id);
    RootDescentPath(v, n, u, w, id, r);
  }

  lemma WithinRootSlotIsWithinTrie(v: Pool, w: Pool, id: nat, s: nat)
    requires Shape(v) && WithinRootSlot(v, w, id, s)
    ensures WithinTrie(v, w, id)
  {
  }

  /** Masking the address of a route changes neither the plies that it needs nor where they hang. */
  lemma SamePath(r: Route, a: Route)
    requires IsRoute(r) && IsRoute(a) && a.len == r.len
    requires r.len > 16 ==> a.dst / 65536 == r.dst / 65536
    requires r.len > 24 ==> a.dst / 256 == r.dst / 256
    ensures forall m: Root, v {:trigger PathDeep(m, v, r)} :: Shape(v) && |m.leaves| == |m.bits| == 65536 ==>
              (PathDeep(m, v, a) <==> PathDeep(m, v, r))
    ensures forall v, w, id {:trigger NewOnPath(v, w, id, r)} :: Shape(w) ==>
              (NewOnPath(v, w, id, a) <==> NewOnPath(v, w, id, r))
  {
    forall v, w, id | Shape(w) ensures NewOnPath(v, w, id, a) <==> NewOnPath(v, w, id, r) {
      forall c: nat | c < |w.keys| ensures OnPath(w, c, id, a) <==> OnPath(w, c, id, r) {
      }
    }
  }

  lemma PathStaysDeep(m: Root, v: Pool, n: Root, w: Pool, r: Route)
    requires Shape(v) && |m.leaves| == |m.bits| == 65536 && |n.leaves| == |n.bits| == 65536 && IsRoute(r)
    requires PathDeep(m, v, r) && Grows(v, w) && RootStaysDeep(m, n)
    ensures PathDeep(n, w, r)
  {
    if r.len > 16 {
      var c := m.leaves[r.dst / 65536] / 2;
      assert n.leaves[r.dst / 65536] == m.leaves[r.dst / 65536];
      assert w.base[c] == v.base[c] && StaysDeep(v, w, c);
      assert SlotAt(w, c, r.dst / 256 % 256).leaf == SlotAt(v, c, r.dst / 256 % 256).leaf
             || Terminal(SlotAt(v, c, r.dst / 256 % 256).leaf);
    }
  }
}
