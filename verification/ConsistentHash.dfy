/** A step coprime to the height visits every row. */
module PrimeSteps {
  import opened Arithmetic
  import opened Counting

  predicate IsPrime(p: int) {
    p >= 2 && forall d :: 1 < d < p ==> p % d != 0
  }

  /** Euclid's lemma for a factor below the prime. */
  lemma {:induction false} PrimeDividesFactor(p: int, a: int, b: int)
    requires IsPrime(p) && 0 < a < p && (a * b) % p == 0
    ensures b % p == 0
    decreases a
  {
    if a > 1 {
      var q, r := p / a, p % a;
      var k := (a * b) / p;
      assert a * b == p * k;
      assert p == a * q + r && 0 < r < a;
      calc {
        r * b;
        (p - a * q) * b;
        p * b - q * (a * b);
        p * b - q * (p * k);
        p * (b - q * k);
      }
      MultipleModZero(p, b - q * k);
      PrimeDividesFactor(p, r, b);
    }
  }

  /** Distinct steps below the prime end in distinct places. */
  lemma StepsAreDistinct(p: int, offset: int, shift: int, i: int, j: int)
    requires IsPrime(p) && 0 < shift < p && 0 <= i < j < p
    ensures (offset + shift * i) % p != (offset + shift * j) % p
  {
    var x, y := offset + shift * i, offset + shift * j;
    if x % p == y % p {
      assert y - x == p * (y / p - x / p);
      MultipleModZero(p, y / p - x / p);
      assert shift * (j - i) == y - x;
      PrimeDividesFactor(p, shift, j - i);
    }
  }

  lemma AddMultiple(p: int, x: int, k: int)
    requires p > 0
    ensures (x + p * k) % p == x % p
  {
    assert x + p * k == p * (x / p + k) + x % p;
    RemainderUnique(x + p * k, p, x / p + k, x % p);
  }

  lemma AddModulo(p: int, x: int, y: int)
    requires p > 0
    ensures (x % p + y) % p == (x + y) % p
  {
    AddMultiple(p, x % p + y, x / p);
  }

  function Walk(p: int, offset: int, shift: int, j: int): int
    requires p > 0
  {
    (offset + shift * j) % p
  }

  /** One more step, and back to the start after all. */
  lemma WalkOn(p: int, offset: int, shift: int, j: int, next: int)
    requires p > 0 && next == if j == p - 1 then 0 else j + 1
    ensures (Walk(p, offset, shift, j) + shift) % p == Walk(p, offset, shift, next)
  {
    AddModulo(p, offset + shift * j, shift);
    assert offset + shift * j + shift == offset + shift * (j + 1);
    if j == p - 1 {
      assert offset + shift * p == offset + shift * 0 + p * shift;
      AddMultiple(p, offset + shift * 0, shift);
    }
  }

  function Walks(p: int, offset: int, shift: int): (r: seq<int>)
    requires p > 0
    ensures |r| == p
  {
    seq(p, j requires 0 <= j => Walk(p, offset, shift, j))
  }

  /** Every place is reached in exactly one number of steps. */
  lemma EveryPlaceOnce(p: int, offset: int, shift: int, b: int) returns (j: int)
    requires IsPrime(p) && 0 < shift < p && 0 <= b < p
    ensures 0 <= j < p && Walk(p, offset, shift, j) == b
    ensures forall k :: 0 <= k < p && Walk(p, offset, shift, k) == b ==> k == j
  {
    var s := Walks(p, offset, shift);
    forall i, k | 0 <= i < k < p ensures s[i] != s[k] {
      StepsAreDistinct(p, offset, shift, i, k);
    }
    Pigeonhole(s, p);
    assert b in s;
    j :| 0 <= j < p && s[j] == b;
    forall k | 0 <= k < p && Walk(p, offset, shift, k) == b ensures k == j {
      assert s[k] == b;
    }
  }

  /** Two walks with different steps are at the same place after exactly one number of steps. */
  lemma MeetOnce(p: int, x: int, s: int, y: int, t: int) returns (j: int)
    requires IsPrime(p) && 0 < s < t < p
    ensures 0 <= j < p && Walk(p, x, s, j) == Walk(p, y, t, j)
    ensures forall k :: 0 <= k < p && Walk(p, x, s, k) == Walk(p, y, t, k) ==> k == j
  {
    j := EveryPlaceOnce(p, y - x, t - s, 0);
    forall k | 0 <= k < p
      ensures Walk(p, x, s, k) == Walk(p, y, t, k) <==> Walk(p, y - x, t - s, k) == 0
    {
      DifferenceModulo(p, x, s, y, t, k);
    }
  }

  lemma DifferenceModulo(p: int, x: int, s: int, y: int, t: int, k: int)
    requires p > 0
    ensures Walk(p, x, s, k) == Walk(p, y, t, k) <==> Walk(p, y - x, t - s, k) == 0
  {
    var a, b := x + s * k, y + t * k;
    assert (y - x) + (t - s) * k == b - a;
    if a % p == b % p {
      assert b - a == p * (b / p - a / p);
      MultipleModZero(p, b / p - a / p);
    }
    if (b - a) % p == 0 {
      assert b == a + p * ((b - a) / p);
      AddMultiple(p, a, (b - a) / p);
    }
  }
}

/** The Maglev-style consistent hash table of src/cht.c.

    A table of height `h` for `n` backends stores, for each of `h` buckets, a priority list of all
    backends.  Each backend prefers the buckets in the order of its own permutation of the rows. */
module ConsistentHash {
  import opened Arithmetic
  import opened PrimeSteps
  import opened Counting

  const UINT32: int := 0x1_0000_0000

  /** The bucket in place `j` of backend `i`'s permutation. */
  function Preference(i: nat, j: nat, h: int): int
    requires h > 1
  {
    var offset := (i * 31 % UINT32) % h;
    var shift := i % (h - 1) + 1;
    (offset + shift * j) % h
  }

  function Row(i: nat, h: int): (r: seq<int>)
    requires h > 1
    ensures |r| == h
  {
    seq(h, j requires 0 <= j => Preference(i, j, h))
  }

  /** Each backend's preferences are a permutation of the buckets. */
  lemma RowIsPermutation(i: nat, h: int)
    requires IsPrime(h)
    ensures Distinct(Row(i, h)) && Below(Row(i, h), h)
    ensures forall b :: 0 <= b < h ==> b in Row(i, h)
  {
    var offset := (i * 31 % UINT32) % h;
    var shift := i % (h - 1) + 1;
    forall j, k | 0 <= j < k < h ensures Row(i, h)[j] != Row(i, h)[k] {
      StepsAreDistinct(h, offset, shift, j, k);
    }
    Pigeonhole(Row(i, h), h);
  }

  /** The place of bucket `b` in backend `i`'s permutation. */
  ghost function Place(i: nat, b: nat, h: int): (j: nat)
    requires IsPrime(h) && b < h
    ensures j < h && Preference(i, j, h) == b
  {
    RowIsPermutation(i, h);
    assert b in Row(i, h);
    var j :| 0 <= j < h && Row(i, h)[j] == b;
    j
  }

  lemma PlaceIsUnique(i: nat, j: nat, h: int)
    requires IsPrime(h) && j < h
    ensures 0 <= Preference(i, j, h) < h && Place(i, Preference(i, j, h), h) == j
  {
    RowIsPermutation(i, h);
    var k := Place(i, Preference(i, j, h), h);
    assert Row(i, h)[k] == Row(i, h)[j];
  }

  // ---- Where the backends' preferences differ

  /** The bucket that backend `i` prefers to all others. */
  function Favourite(i: nat, h: int): (b: int)
    requires h > 0
    ensures 0 <= b < h
  {
    (31 * i % UINT32) % h
  }

  lemma FavouriteIsFirst(i: nat, b: nat, h: int)
    requires IsPrime(h) && b < h
    ensures Place(i, b, h) == 0 <==> b == Favourite(i, h)
  {
    assert Preference(i, 0, h) == Favourite(i, h) by {
      assert i * 31 == 31 * i;
      RemainderUnique(Favourite(i, h), h, 0, Favourite(i, h));
    }
    PlaceIsUnique(i, 0, h);
  }

  lemma PreferenceIsWalk(i: nat, j: nat, h: int)
    requires h > 1
    ensures Preference(i, j, h) == Walk(h, (i * 31 % UINT32) % h, i % (h - 1) + 1, j)
  {
  }

  /** The next preference is `i % (h - 1) + 1` buckets further, around the table. */
  lemma NextPreference(i: nat, b: nat, h: int)
    requires IsPrime(h) && b < h
    ensures 0 <= (b + i % (h - 1) + 1) % h < h
    ensures Place(i, (b + i % (h - 1) + 1) % h, h) == (Place(i, b, h) + 1) % h
  {
    var j := Place(i, b, h);
    RemainderUnique(h, h, 1, 0);
    RemainderUnique(j, h, 0, j);
    var next := if j == h - 1 then 0 else j + 1;
    RemainderUnique(j + 1, h, if j == h - 1 then 1 else 0, next);
    WalkOn(h, (i * 31 % UINT32) % h, i % (h - 1) + 1, j, next);
    PreferenceIsWalk(i, j, h);
    PreferenceIsWalk(i, next, h);
    PlaceIsUnique(i, next, h);
  }

  /** Two backends that take different steps give the same place to exactly one bucket. */
  lemma AgreeOnce(i: nat, k: nat, h: int) returns (b: nat)
    requires IsPrime(h) && i % (h - 1) < k % (h - 1)
    ensures b < h && Place(i, b, h) == Place(k, b, h)
    ensures forall c: nat {:trigger Place(i, c, h)} :: c < h && Place(i, c, h) == Place(k, c, h) ==> c == b
  {
    var j := MeetOnce(h, (i * 31 % UINT32) % h, i % (h - 1) + 1, (k * 31 % UINT32) % h, k % (h - 1) + 1);
    PreferenceIsWalk(i, j, h);
    PreferenceIsWalk(k, j, h);
    PlaceIsUnique(i, j, h);
    PlaceIsUnique(k, j, h);
    b := Preference(i, j, h);
    forall c: nat | c < h && Place(i, c, h) == Place(k, c, h) ensures c == b {
      PreferenceIsWalk(i, Place(i, c, h), h);
      PreferenceIsWalk(k, Place(k, c, h), h);
    }
  }

  /** The order of a bucket's priority list: by the bucket's place in the backend's permutation,
      then by backend. */
  ghost predicate Before(x: nat, y: nat, b: nat, h: int)
    requires IsPrime(h) && b < h
  {
    Place(x, b, h) < Place(y, b, h) || (Place(x, b, h) == Place(y, b, h) && x < y)
  }

  ghost predicate Ordered(list: seq<int>, b: nat, n: nat, h: int)
    requires IsPrime(h) && b < h
  {
    && Below(list, n)
    && forall k, l :: 0 <= k < l < |list| ==> Before(list[k], list[l], b, h)
  }

  /** What a bucket's list has to be. */
  ghost predicate IsPriorityList(list: seq<int>, b: nat, n: nat, h: int)
    requires IsPrime(h) && b < h
  {
    Ordered(list, b, n, h) && |list| == n && forall x :: 0 <= x < n ==> x in list
  }

  /** There is only one such list, so the description fixes the table. */
  lemma {:induction false} PriorityListIsUnique(p: seq<int>, q: seq<int>, b: nat, n: nat, h: int)
    requires IsPrime(h) && b < h && IsPriorityList(p, b, n, h) && IsPriorityList(q, b, n, h)
    ensures p == q
  {
    var k := 0;
    while k < n
      invariant 0 <= k <= n
      invariant forall i :: 0 <= i < k ==> p[i] == q[i]
    {
      if p[k] != q[k] {
        LaterInOther(p, q, k, b, n, h);
        LaterInOther(q, p, k, b, n, h);
        assert false;
      }
      k := k + 1;
    }
  }

  lemma LaterInOther(p: seq<int>, q: seq<int>, k: nat, b: nat, n: nat, h: int)
    requires IsPrime(h) && b < h && IsPriorityList(p, b, n, h) && IsPriorityList(q, b, n, h)
    requires k < n && p[k] != q[k] && forall i :: 0 <= i < k ==> p[i] == q[i]
    ensures Before(q[k], p[k], b, h)
  {
    assert p[k] in q;
    var i :| 0 <= i < n && q[i] == p[k];
    assert i >= k;
  }

  /** Of the `n` backends, `x` is the least one with its favourite bucket. */
  predicate LeastFavourite(x: nat, n: nat, h: int)
    requires h > 0
  {
    x < n && forall y: nat {:trigger Favourite(y, h)} :: y < x ==> Favourite(y, h) != Favourite(x, h)
  }

  lemma FavouriteLeads(list: seq<int>, x: nat, n: nat, h: int)
    requires IsPrime(h) && LeastFavourite(x, n, h) && IsPriorityList(list, Favourite(x, h), n, h)
    ensures list[0] == x
  {
    var b := Favourite(x, h);
    assert x in list;
    FavouriteIsFirst(x, b, h);
    FavouriteIsFirst(list[0], b, h);
    var k :| 0 <= k < n && list[k] == x;
  }

  // ---- Filling the table

  /** Backend `x` has reached bucket `b` when rows below `i`, and backends below `j` of row `i`,
      have been processed. */
  ghost predicate Reached(x: nat, b: nat, h: int, i: nat, j: nat)
    requires IsPrime(h) && b < h
  {
    Place(x, b, h) < i || (Place(x, b, h) == i && x < j)
  }

  /** The list of bucket `b` at that moment. */
  ghost predicate Partial(list: seq<int>, b: nat, n: nat, h: int, i: nat, j: nat)
    requires IsPrime(h) && b < h
  {
    && Ordered(list, b, n, h)
    && forall x :: x in list <==> 0 <= x < n && Reached(x, b, h, i, j)
  }

  lemma OrderedIsDistinct(list: seq<int>, b: nat, n: nat, h: int)
    requires IsPrime(h) && b < h && Ordered(list, b, n, h)
    ensures Distinct(list)
  {
    forall k, l | 0 <= k < l < |list| ensures list[k] != list[l] {
      assert Before(list[k], list[l], b, h);
    }
  }

  lemma AppendBackend(list: seq<int>, b: nat, n: nat, h: int, i: nat, j: nat)
    requires IsPrime(h) && b < h && j < n
    requires Partial(list, b, n, h, i, j) && Place(j, b, h) == i
    ensures |list| < n
    ensures Partial(list + [j], b, n, h, i, j + 1)
  {
    OrderedIsDistinct(list, b, n, h);
    Pigeonhole(list, n);
    assert !Reached(j, b, h, i, j);
    forall k | 0 <= k < |list| ensures Before(list[k], j, b, h) {
      assert list[k] in list;
    }
  }

  lemma SkipBackend(list: seq<int>, b: nat, n: nat, h: int, i: nat, j: nat)
    requires IsPrime(h) && b < h
    requires Partial(list, b, n, h, i, j) && Place(j, b, h) != i
    ensures Partial(list, b, n, h, i, j + 1)
  {
  }

  lemma NextRow(list: seq<int>, b: nat, n: nat, h: int, i: nat)
    requires IsPrime(h) && b < h && Partial(list, b, n, h, i, n)
    ensures Partial(list, b, n, h, i + 1, 0)
  {
  }

  lemma AllRows(list: seq<int>, b: nat, n: nat, h: int)
    requires IsPrime(h) && b < h && Partial(list, b, n, h, h, 0)
    ensures IsPriorityList(list, b, n, h)
  {
    forall x | 0 <= x < n ensures x in list {
      assert Reached(x, b, h, h, 0);
    }
    OrderedIsDistinct(list, b, n, h);
    Pigeonhole(list, n);
  }

  /** The table holds the lists, each from the start of its bucket. */
  ghost predicate Stored(table: seq<int>, lists: seq<seq<int>>, n: nat) {
    && (forall b :: 0 <= b < |lists| ==> |lists[b]| <= n)
    && (forall b, k :: 0 <= b < |lists| && 0 <= k < |lists[b]| ==>
          Slot(b, k, n) < |table| && table[Slot(b, k, n)] == lists[b][k])
  }

  lemma StoreOne(table: seq<int>, lists: seq<seq<int>>, n: nat, b: nat, x: int)
    requires Stored(table, lists, n) && b < |lists| && |lists[b]| < n
    requires Slot(b, |lists[b]|, n) < |table|
    ensures Stored(table[Slot(b, |lists[b]|, n) := x], lists[b := lists[b] + [x]], n)
  {
    var lists' := lists[b := lists[b] + [x]];
    forall c, k | 0 <= c < |lists'| && 0 <= k < |lists'[c]| && (c != b || k < |lists[b]|)
      ensures Slot(c, k, n) != Slot(b, |lists[b]|, n)
      ensures lists'[c][k] == lists[c][k]
    {
      if Slot(c, k, n) == Slot(b, |lists[b]|, n) {
        SlotInjective(c, k, b, |lists[b]|, n);
      }
    }
  }

  /** The priority list of bucket `b`. */
  function Bucket(table: seq<int>, b: nat, n: nat, h: nat): (r: seq<int>)
    requires |table| == n * h && b < h
    ensures |r| == n
  {
    seq(n, k requires 0 <= k < n => SlotInBounds(b, k, n, h); table[Slot(b, k, n)])
  }

  lemma StoredBucket(table: seq<int>, lists: seq<seq<int>>, n: nat, h: nat, b: nat)
    requires Stored(table, lists, n) && |table| == n * h && |lists| == h && b < h
    requires |lists[b]| == n
    ensures Bucket(table, b, n, h) == lists[b]
  {
    forall k | 0 <= k < n ensures Bucket(table, b, n, h)[k] == lists[b][k] {
    }
  }

  /** `slot` is among the first ones of its bucket, as far as the lists reach. */
  ghost predicate Occupied(slot: int, lists: seq<seq<int>>, n: nat) {
    exists b, k :: 0 <= b < |lists| && 0 <= k < |lists[b]| && slot == Slot(b, k, n)
  }

  /** No slot has been written twice, and only occupied ones have been written. */
  ghost predicate Written(writes: seq<int>, lists: seq<seq<int>>, n: nat) {
    Distinct(writes) && forall w :: 0 <= w < |writes| ==> Occupied(writes[w], lists, n)
  }

  lemma WriteOne(writes: seq<int>, lists: seq<seq<int>>, n: nat, b: nat, x: int)
    requires Written(writes, lists, n) && b < |lists| && |lists[b]| < n
    requires forall c :: 0 <= c < |lists| ==> |lists[c]| <= n
    ensures Written(writes + [Slot(b, |lists[b]|, n)], lists[b := lists[b] + [x]], n)
  {
    var lists' := lists[b := lists[b] + [x]];
    var writes' := writes + [Slot(b, |lists[b]|, n)];
    forall w | 0 <= w < |writes'|
      ensures Occupied(writes'[w], lists', n)
      ensures w < |writes| ==> writes'[w] != writes'[|writes|]
    {
      if w < |writes| {
        assert Occupied(writes[w], lists, n);
        var c, k :| 0 <= c < |lists| && 0 <= k < |lists[c]| && writes[w] == Slot(c, k, n);
        if writes'[w] == writes'[|writes|] {
          SlotInjective(c, k, b, |lists[b]|, n);
        }
        assert 0 <= k < |lists'[c]|;
      } else {
        assert 0 <= |lists[b]| < |lists'[b]|;
      }
    }
  }

  lemma OccupiedInBounds(slot: int, lists: seq<seq<int>>, n: nat, h: nat)
    requires Occupied(slot, lists, n) && |lists| == h
    requires forall b :: 0 <= b < h ==> |lists[b]| <= n
    ensures 0 <= slot < h * n
  {
    var b, k :| 0 <= b < |lists| && 0 <= k < |lists[b]| && slot == Slot(b, k, n);
    SlotInBounds(b, k, n, h);
  }

  lemma EverySlotWritten(writes: seq<int>, lists: seq<seq<int>>, n: nat, h: nat)
    requires Written(writes, lists, n) && |lists| == h && |writes| == h * n
    requires forall b :: 0 <= b < h ==> |lists[b]| <= n
    ensures forall slot :: 0 <= slot < n * h <==> slot in writes
  {
    forall w | 0 <= w < |writes| ensures 0 <= writes[w] < h * n {
      OccupiedInBounds(writes[w], lists, n, h);
    }
    Pigeonhole(writes, h * n);
  }

  /** Everything the filling loops keep, when rows below `i` and backends below `j` of row `i` have
      been processed. */
  ghost predicate Progress(table: seq<int>, lists: seq<seq<int>>, writes: seq<int>,
                           n: nat, h: int, i: nat, j: nat)
    requires IsPrime(h)
  {
    && |lists| == h
    && Stored(table, lists, n)
    && Written(writes, lists, n)
    && forall b :: 0 <= b < h ==> Partial(lists[b], b, n, h, i, j)
  }

  lemma ProcessedNone(table: seq<int>, lists: seq<seq<int>>, n: nat, h: int)
    requires IsPrime(h) && |lists| == h && forall b :: 0 <= b < h ==> lists[b] == []
    ensures Progress(table, lists, [], n, h, 0, 0)
  {
    forall b | 0 <= b < h ensures Partial(lists[b], b, n, h, 0, 0) {
      assert forall x: nat :: !Reached(x, b, h, 0, 0);
    }
  }

  lemma ProcessOne(table: seq<int>, lists: seq<seq<int>>, writes: seq<int>,
                   n: nat, h: int, i: nat, j: nat, b: nat)
    requires IsPrime(h) && i < h && j < n && |table| == n * h
    requires Progress(table, lists, writes, n, h, i, j) && b == Preference(j, i, h) < h
    ensures |lists[b]| < n && n * b + |lists[b]| < |table|
    ensures var slot := n * b + |lists[b]|;
            Progress(table[slot := j], lists[b := lists[b] + [j]], writes + [slot], n, h, i, j + 1)
  {
    PlaceIsUnique(j, i, h);
    AppendBackend(lists[b], b, n, h, i, j);
    forall c | 0 <= c < h && c != b ensures Partial(lists[c], c, n, h, i, j + 1) {
      SkipBackend(lists[c], c, n, h, i, j);
    }
    SlotInBounds(b, |lists[b]|, n, h);
    StoreOne(table, lists, n, b, j);
    WriteOne(writes, lists, n, b, j);
  }

  lemma ProcessedRow(table: seq<int>, lists: seq<seq<int>>, writes: seq<int>, n: nat, h: int, i: nat)
    requires IsPrime(h) && Progress(table, lists, writes, n, h, i, n)
    ensures Progress(table, lists, writes, n, h, i + 1, 0)
  {
    forall b | 0 <= b < h ensures Partial(lists[b], b, n, h, i + 1, 0) {
      NextRow(lists[b], b, n, h, i);
    }
  }

  lemma ProcessedAll(table: seq<int>, lists: seq<seq<int>>, writes: seq<int>, n: nat, h: int)
    requires IsPrime(h) && Progress(table, lists, writes, n, h, h, 0)
    requires |table| == n * h && |writes| == h * n
    ensures forall b :: 0 <= b < h ==> IsPriorityList(Bucket(table, b, n, h), b, n, h)
    ensures Distinct(writes) && forall slot :: 0 <= slot < n * h <==> slot in writes
  {
    forall b | 0 <= b < h ensures IsPriorityList(Bucket(table, b, n, h), b, n, h) {
      AllRows(lists[b], b, n, h);
      StoredBucket(table, lists, n, h, b);
    }
    EverySlotWritten(writes, lists, n, h);
  }

  /** The array holds the preferences of backends below `i`, and the first `j` of backend `i`. */
  ghost predicate HoldsPreferences(permutations: seq<int>, h: int, i: nat, j: nat)
    requires h > 1
  {
    forall x, y :: 0 <= x <= i && 0 <= y < h && (x < i || y < j) ==>
      Slot(x, y, h) < |permutations| && permutations[Slot(x, y, h)] == Preference(x, y, h)
  }

  lemma HoldOneMore(permutations: seq<int>, h: int, i: nat, j: nat)
    requires 0 <= j < h && h > 1 && HoldsPreferences(permutations, h, i, j)
    requires Slot(i, j, h) < |permutations|
    ensures HoldsPreferences(permutations[Slot(i, j, h) := Preference(i, j, h)], h, i, j + 1)
  {
    forall x, y | 0 <= x <= i && 0 <= y < h && Slot(x, y, h) == Slot(i, j, h)
      ensures x == i && y == j
    {
      SlotInjective(x, y, i, j, h);
    }
  }

  /** The first loop nest of `nfos_cht_fill_cht`. */
  method Permutations(h: int, n: nat) returns (permutations: array<int>)
    requires h > 1
    ensures fresh(permutations) && HoldsPreferences(permutations[..], h, n, 0)
  {
    permutations := new int[n * h];
    for i := 0 to n
      invariant HoldsPreferences(permutations[..], h, i, 0)
    {
      var offset := (i * 31 % UINT32) % h;
      var shift := i % (h - 1) + 1;
      for j := 0 to h
        invariant HoldsPreferences(permutations[..], h, i, j)
      {
        SlotInBounds(i, j, h, n);
        HoldOneMore(permutations[..], h, i, j);
        permutations[i * h + j] := (offset + shift * j) % h;
      }
    }
  }

  /** The inner loop of the second loop nest: row `i` of every backend. */
  method FillRow(cht: array<int>, permutations: array<int>, next: array<int>, h: int, n: nat, i: nat,
                 written: seq<int>, ghost before: seq<seq<int>>)
    returns (writes: seq<int>, ghost lists: seq<seq<int>>)
    requires IsPrime(h) && i < h && cht.Length == n * h && next.Length == h
    requires cht != next && cht != permutations && next != permutations
    requires HoldsPreferences(permutations[..], h, n, 0)
    requires Progress(cht[..], before, written, n, h, i, 0)
    requires forall b :: 0 <= b < h ==> next[b] == |before[b]|
    modifies cht, next
    ensures Progress(cht[..], lists, writes, n, h, i + 1, 0)
    ensures |writes| == |written| + n
    ensures forall b :: 0 <= b < h ==> next[b] == |lists[b]|
  {
    writes, lists := written, before;
    for j := 0 to n
      invariant Progress(cht[..], lists, writes, n, h, i, j) && |writes| == |written| + j
      invariant forall b :: 0 <= b < h ==> next[b] == |lists[b]|
    {
      SlotValue(j, i, h);
      var bucket := permutations[j * h + i];
      PlaceIsUnique(j, i, h);
      ProcessOne(cht[..], lists, writes, n, h, i, j, bucket);
      var priority := next[bucket];
      next[bucket] := next[bucket] + 1;
      cht[n * bucket + priority] := j;
      writes := writes + [n * bucket + priority];
      lists := lists[bucket := lists[bucket] + [j]];
    }
    ProcessedRow(cht[..], lists, writes, n, h, i);
  }

  /** `nfos_cht_fill_cht`.  `writes` records the slots in the order in which they are written. */
  method FillCht(cht: array<int>, h: int, n: nat) returns (writes: seq<int>)
    requires IsPrime(h) && cht.Length == n * h
    modifies cht
    ensures forall b :: 0 <= b < h ==> IsPriorityList(Bucket(cht[..], b, n, h), b, n, h)
    ensures Distinct(writes) && forall slot :: 0 <= slot < n * h <==> slot in writes
    ensures forall x :: LeastFavourite(x, n, h) ==> Bucket(cht[..], Favourite(x, h), n, h)[0] == x
  {
    var permutations := Permutations(h, n);
    var next := new int[h](_ => 0);
    writes := [];
    ghost var lists: seq<seq<int>> := seq(h, _ => []);
    ProcessedNone(cht[..], lists, n, h);
    for i := 0 to h
      invariant HoldsPreferences(permutations[..], h, n, 0)
      invariant Progress(cht[..], lists, writes, n, h, i, 0) && |writes| == Slot(i, 0, n)
      invariant forall b :: 0 <= b < h ==> next[b] == |lists[b]|
    {
      writes, lists := FillRow(cht, permutations, next, h, n, i, writes, lists);
    }
    SlotValue(h, 0, n);
    ProcessedAll(cht[..], lists, writes, n, h);
    forall x | LeastFavourite(x, n, h) ensures Bucket(cht[..], Favourite(x, h), n, h)[0] == x {
      FavouriteLeads(Bucket(cht[..], Favourite(x, h), n, h), x, n, h);
    }
  }

  // ---- Choosing a backend

  /** The first active backend of a priority list, or -1. */
  function Choose(list: seq<int>, active: set<int>): int {
    if list == [] then -1 else if list[0] in active then list[0] else Choose(list[1..], active)
  }

  lemma {:induction false} ChooseIsFirst(list: seq<int>, active: set<int>)
    requires forall k :: 0 <= k < |list| ==> list[k] >= 0
    ensures Choose(list, active) >= 0 <==> exists k :: 0 <= k < |list| && list[k] in active
    ensures Choose(list, active) >= 0 ==>
              exists k :: && 0 <= k < |list| && list[k] == Choose(list, active) && list[k] in active
                          && forall i :: 0 <= i < k ==> list[i] !in active
  {
    if list != [] && list[0] !in active {
      var rest := list[1..];
      ChooseIsFirst(rest, active);
      assert forall k :: 0 < k < |list| ==> list[k] == rest[k - 1];
      if Choose(rest, active) >= 0 {
        var k :| && 0 <= k < |rest| && rest[k] == Choose(rest, active) && rest[k] in active
                 && forall i :: 0 <= i < k ==> rest[i] !in active;
        assert list[k + 1] == rest[k];
      }
    }
  }

  /** In a bucket of a filled table a backend is found exactly when any backend is active, and it is
      the active one with the highest priority. */
  lemma ChosenIsBest(list: seq<int>, active: set<int>, b: nat, n: nat, h: int)
    requires IsPrime(h) && b < h && IsPriorityList(list, b, n, h)
    ensures var c := Choose(list, active);
            && (c >= 0 <==> exists x :: 0 <= x < n && x in active)
            && (c >= 0 ==> c < n && c in active
                           && forall x :: 0 <= x < n && x in active && x != c ==> Before(c, x, b, h))
  {
    ChooseIsFirst(list, active);
    var c := Choose(list, active);
    if c >= 0 {
      var k :| && 0 <= k < |list| && list[k] == c && list[k] in active
               && forall i :: 0 <= i < k ==> list[i] !in active;
      forall x | 0 <= x < n && x in active && x != c ensures Before(c, x, b, h) {
        assert x in list;
        var i :| 0 <= i < |list| && list[i] == x;
        assert i > k;
      }
    } else if exists x :: 0 <= x < n && x in active {
      var x :| 0 <= x < n && x in active;
      assert x in list;
    }
  }

  /** Deactivating a backend moves only the hashes that had chosen it. */
  lemma {:induction false} DeactivationIsLocal(list: seq<int>, active: set<int>, gone: int)
    requires Choose(list, active) != gone
    ensures Choose(list, active - {gone}) == Choose(list, active)
  {
    if list != [] && list[0] !in active {
      DeactivationIsLocal(list[1..], active, gone);
    }
  }

  /** Activating a backend moves hashes only to that backend. */
  lemma {:induction false} ActivationIsLocal(list: seq<int>, active: set<int>, added: int)
    ensures Choose(list, active + {added}) in {Choose(list, active), added}
  {
    if list != [] && list[0] !in active && list[0] != added {
      ActivationIsLocal(list[1..], active, added);
    }
  }

  /** `nfos_cht_find_preferred_available_backend`.  The result is -1 when the source returns 0. */
  method FindPreferredAvailableBackend(hash: nat, cht: array<int>, active: set<int>, h: nat, n: nat)
    returns (chosen: int)
    requires h > 0 && cht.Length == n * h
    requires forall k :: 0 <= k < cht.Length ==> cht[k] >= 0
    ensures chosen == Choose(Bucket(cht[..], hash % h, n, h), active)
  {
    var start := hash % h;
    ghost var list := Bucket(cht[..], start, n, h);
    for i := 0 to n
      invariant Choose(list[i..], active) == Choose(list, active)
    {
      SlotInBounds(start, i, n, h);
      var candidate := cht[start * n + i];
      assert candidate == list[i] && list[i..][1..] == list[i + 1..];
      if candidate in active {
        return candidate;
      }
    }
    return -1;
  }
}
