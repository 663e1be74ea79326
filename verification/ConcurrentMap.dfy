/** The chained hash map of src/concurrent-map.c.

    Each partition of the packet sets has its own range of buckets.  A bucket holds the first index of a
    chain; `next` (the field `map_chain_next` of the allocator's cells) holds the rest of the chain and
    `ids` the key of each index. */
module ConcurrentMap {
  import opened Arithmetic
  import opened CellLists
  import opened PowersOfTwo

  // ---- Buckets

  /** The low bits of the hash select a bucket within the partition's range. */
  function BucketId(hash: nat, partition: nat, width: nat): (b: nat)
    requires width > 0
  {
    Slot(partition, hash % width, width)
  }

  /** The source's masks and shifts compute the bucket, which lies in the partition's range. */
  lemma BucketIdIsMasked(hash: nat, partition: nat, width: nat, partitions: nat)
    requires IsPowerOfTwo(width) && partition < partitions
    ensures And(hash, width - 1) + partition * width == BucketId(hash, partition, width)
    ensures partition * width <= BucketId(hash, partition, width) < (partition + 1) * width
    ensures BucketId(hash, partition, width) < partitions * width
  {
    MaskIsModulo(hash, width);
    SlotInBounds(partition, hash % width, width, partitions);
    SlotInBounds(partition, hash % width, width, partition + 1);
  }

  /** The bucket ranges of different partitions do not overlap. */
  lemma BucketsAreDisjoint(h: nat, p: nat, h': nat, p': nat, width: nat)
    requires width > 0 && BucketId(h, p, width) == BucketId(h', p', width)
    ensures p == p' && h % width == h' % width
  {
    SlotInjective(p, h % width, p', h' % width, width);
  }

  // ---- One chain

  ghost predicate ChainLink(next: seq<int>, s: seq<int>, k: nat)
    requires k < |s|
  {
    0 <= s[k] < |next| && next[s[k]] == if k + 1 < |s| then s[k + 1] else -1
  }

  /** The indexes `s` are linked from `head` on, and the last one to -1. */
  ghost predicate Chain(next: seq<int>, head: int, s: seq<int>) {
    && head == (if s == [] then -1 else s[0])
    && forall k: nat {:trigger ChainLink(next, s, k)} :: k < |s| ==> ChainLink(next, s, k)
  }

  lemma ChainFrame(next: seq<int>, next': seq<int>, head: int, s: seq<int>)
    requires Chain(next, head, s) && |next'| == |next|
    requires forall x :: x in s && 0 <= x < |next| ==> next'[x] == next[x]
    ensures Chain(next', head, s)
  {
    forall k: nat | k < |s| ensures ChainLink(next', s, k) {
      assert ChainLink(next, s, k);
    }
  }

  lemma ChainAppend(next: seq<int>, head: int, s: seq<int>, x: nat)
    requires Chain(next, head, s) && NoRepeats(s) && x < |next| && x !in s && next[x] == -1
    ensures s == [] ==> Chain(next, x, [x])
    ensures s != [] ==> 0 <= s[|s| - 1] < |next| && Chain(next[s[|s| - 1] := x], head, s + [x])
    ensures NoRepeats(s + [x])
  {
    if s == [] {
      assert ChainLink(next, [x], 0);
    } else {
      assert ChainLink(next, s, |s| - 1);
      var next' := next[s[|s| - 1] := x];
      forall k: nat | k < |s + [x]| ensures ChainLink(next', s + [x], k) {
        assert k < |s| ==> ChainLink(next, s, k);
      }
    }
  }

  /** Taking the `k`-th index out of a chain. */
  function Unchained(next: seq<int>, s: seq<int>, k: nat): seq<int>
    requires k < |s| && 0 <= s[k] < |next| && (k > 0 ==> 0 <= s[k - 1] < |next|)
  {
    (if k > 0 then next[s[k - 1] := next[s[k]]] else next)[s[k] := -1]
  }

  lemma ChainRemove(next: seq<int>, head: int, s: seq<int>, k: nat)
    requires Chain(next, head, s) && NoRepeats(s) && k < |s|
    ensures 0 <= s[k] < |next| && (k > 0 ==> 0 <= s[k - 1] < |next|)
    ensures Chain(Unchained(next, s, k), if k == 0 then next[s[0]] else head, s[..k] + s[k + 1..])
  {
    assert ChainLink(next, s, k) && (k > 0 ==> ChainLink(next, s, k - 1));
    var next', t := Unchained(next, s, k), s[..k] + s[k + 1..];
    forall j: nat | j < |t| ensures ChainLink(next', t, j) {
      assert ChainLink(next, s, if j < k then j else j + 1);
    }
  }

  // ---- All chains

  datatype Table<I> = Table(buckets: seq<int>, next: seq<int>, ids: seq<I>)

  /** The indexes of each bucket's chain, and for each index in the map its partition. */
  datatype Chains = Chains(lists: seq<seq<int>>, owner: map<int, nat>)

  ghost predicate ChainOk<I>(t: Table<I>, hash: I -> nat, width: nat, c: Chains, b: nat)
    requires width > 0 && b < |c.lists| && b < |t.buckets|
  {
    && Chain(t.next, t.buckets[b], c.lists[b]) && NoRepeats(c.lists[b])
    && forall x :: x in c.lists[b] ==>
         0 <= x < |t.ids| && x in c.owner && b == BucketId(hash(t.ids[x]), c.owner[x], width)
  }

  ghost predicate OwnerOk<I>(t: Table<I>, hash: I -> nat, width: nat, c: Chains, x: int)
    requires width > 0 && x in c.owner
  {
    && 0 <= x < |t.ids|
    && var b := BucketId(hash(t.ids[x]), c.owner[x], width);
       b < |c.lists| && x in c.lists[b]
  }

  ghost predicate LooseOk<I>(t: Table<I>, c: Chains, x: int)
    requires 0 <= x < |t.next|
  {
    x !in c.owner ==> t.next[x] == -1
  }

  ghost predicate SameKey<I>(t: Table<I>, c: Chains, x: int, y: int) {
    && x in c.owner && y in c.owner && c.owner[x] == c.owner[y]
    && 0 <= x < |t.ids| && 0 <= y < |t.ids| && t.ids[x] == t.ids[y]
  }

  /** Chains are acyclic, disjoint and end in -1; indexes outside chains have link -1; a partition stores
      each key once. */
  ghost predicate Inv<I>(t: Table<I>, hash: I -> nat, width: nat, c: Chains) {
    && width > 0 && |t.buckets| == |c.lists| && |t.next| == |t.ids|
    && (forall b: nat {:trigger ChainOk(t, hash, width, c, b)} :: b < |c.lists| ==> ChainOk(t, hash, width, c, b))
    && (forall x {:trigger OwnerOk(t, hash, width, c, x)} :: x in c.owner ==> OwnerOk(t, hash, width, c, x))
    && (forall x {:trigger LooseOk(t, c, x)} :: 0 <= x < |t.next| ==> LooseOk(t, c, x))
    && UniqueKeys(t, c)
  }

  ghost predicate UniqueKeys<I>(t: Table<I>, c: Chains) {
    forall x, y {:trigger SameKey(t, c, x, y)} :: SameKey(t, c, x, y) ==> x == y
  }

  /** What partition `p` stores. */
  ghost function Contents<I>(t: Table<I>, c: Chains, p: nat): map<I, int>
    requires UniqueKeys(t, c)
  {
    assert forall x, y ::
        (x in c.owner && y in c.owner && c.owner[x] == p && c.owner[y] == p
         && 0 <= x < |t.ids| && 0 <= y < |t.ids| && t.ids[x] == t.ids[y]) ==> SameKey(t, c, x, y);
    map x | x in c.owner && c.owner[x] == p && 0 <= x < |t.ids| :: t.ids[x] := x
  }

  lemma ContentsOk<I>(t: Table<I>, c: Chains, p: nat)
    requires UniqueKeys(t, c)
    ensures forall k :: k in Contents(t, c, p) ==>
              var x := Contents(t, c, p)[k];
              0 <= x < |t.ids| && t.ids[x] == k && x in c.owner && c.owner[x] == p
  {
  }

  /** A key is stored on the chain of its bucket. */
  lemma StoredOnChain<I>(t: Table<I>, hash: I -> nat, width: nat, c: Chains, p: nat, key: I)
    requires Inv(t, hash, width, c)
    ensures key in Contents(t, c, p) ==>
              var b, x := BucketId(hash(key), p, width), Contents(t, c, p)[key];
              b < |c.lists| && x in c.lists[b] && 0 <= x < |t.ids| && t.ids[x] == key && x in c.owner && c.owner[x] == p
  {
    if key in Contents(t, c, p) {
      assert OwnerOk(t, hash, width, c, Contents(t, c, p)[key]);
    }
  }

  /** Every index on the chain of a partition's bucket belongs to the partition. */
  lemma ChainIsOwned<I>(t: Table<I>, hash: I -> nat, width: nat, c: Chains, p: nat, h: nat, k: nat)
    requires Inv(t, hash, width, c) && BucketId(h, p, width) < |c.lists| && k < |c.lists[BucketId(h, p, width)]|
    ensures var x := c.lists[BucketId(h, p, width)][k];
            0 <= x < |t.ids| && x in c.owner && c.owner[x] == p && Contents(t, c, p)[t.ids[x]] == x
  {
    var b := BucketId(h, p, width);
    assert ChainOk(t, hash, width, c, b);
    var x := c.lists[b][k];
    assert x in c.lists[b];
    BucketsAreDisjoint(h, p, hash(t.ids[x]), c.owner[x], width);
    assert SameKey(t, c, x, Contents(t, c, p)[t.ids[x]]);
  }

  // ---- Insertion

  /** The map after index `x` with key `key` has been appended to its chain. */
  function Extended(c: Chains, b: nat, p: nat, x: int): Chains
    requires b < |c.lists|
  {
    Chains(c.lists[b := c.lists[b] + [x]], c.owner[x := p])
  }

  /** The links after the last index of the chain, or the bucket, has been pointed to `x`. */
  function Linked<I>(t: Table<I>, s: seq<int>, b: nat, x: int, key: I): Table<I>
    requires b < |t.buckets| && 0 <= x < |t.ids| && (s != [] ==> 0 <= s[|s| - 1] < |t.next|)
  {
    if s == [] then Table(t.buckets[b := x], t.next, t.ids[x := key])
    else Table(t.buckets, t.next[s[|s| - 1] := x], t.ids[x := key])
  }

  lemma PutKeepsInv<I>(t: Table<I>, hash: I -> nat, width: nat, c: Chains, p: nat, x: int, key: I)
    requires Inv(t, hash, width, c) && 0 <= x < |t.ids| && x !in c.owner && key !in Contents(t, c, p)
    requires BucketId(hash(key), p, width) < |c.lists|
    ensures var b := BucketId(hash(key), p, width);
            && (c.lists[b] != [] ==> 0 <= c.lists[b][|c.lists[b]| - 1] < |t.next|)
            && Inv(Linked(t, c.lists[b], b, x, key), hash, width, Extended(c, b, p, x))
  {
    var b := BucketId(hash(key), p, width);
    var s := c.lists[b];
    assert ChainOk(t, hash, width, c, b) && LooseOk(t, c, x);
    ChainAppend(t.next, t.buckets[b], s, x);
    var t', c' := Linked(t, s, b, x, key), Extended(c, b, p, x);
    forall d: nat | d < |c'.lists| ensures ChainOk(t', hash, width, c', d) {
      assert ChainOk(t, hash, width, c, d);
      if d != b {
        OtherChainKeeps(t, t', hash, width, c, b, d);
      }
    }
    forall y | y in c'.owner ensures OwnerOk(t', hash, width, c', y) {
      assert y != x ==> OwnerOk(t, hash, width, c, y);
    }
    forall y | 0 <= y < |t'.next| ensures LooseOk(t', c', y) {
      assert LooseOk(t, c, y);
      assert s != [] ==> s[|s| - 1] in s;
    }
    forall y, z | SameKey(t', c', y, z) ensures y == z {
      assert y != x && z != x ==> SameKey(t, c, y, z);
    }
  }

  /** Another chain has none of the indexes of chain `b`. */
  lemma OtherChainKeeps<I>(t: Table<I>, t': Table<I>, hash: I -> nat, width: nat, c: Chains, b: nat, d: nat)
    requires Inv(t, hash, width, c) && b < |c.lists| && d < |c.lists| && b != d && |t'.next| == |t.next|
    requires forall y :: 0 <= y < |t.next| && y in c.owner && y !in c.lists[b] ==> t'.next[y] == t.next[y]
    ensures Chain(t'.next, t.buckets[d], c.lists[d])
    ensures forall y :: y in c.lists[d] ==> y !in c.lists[b]
  {
    assert ChainOk(t, hash, width, c, b) && ChainOk(t, hash, width, c, d);
    ChainFrame(t.next, t'.next, t.buckets[d], c.lists[d]);
  }

  // ---- Removal

  function Shortened(c: Chains, b: nat, k: nat): Chains
    requires b < |c.lists| && k < |c.lists[b]|
  {
    var s := c.lists[b];
    Chains(c.lists[b := s[..k] + s[k + 1..]], c.owner - {s[k]})
  }

  function Unlinked<I>(t: Table<I>, s: seq<int>, b: nat, k: nat): Table<I>
    requires b < |t.buckets| && k < |s| && 0 <= s[k] < |t.next| && (k > 0 ==> 0 <= s[k - 1] < |t.next|)
  {
    Table(if k == 0 then t.buckets[b := t.next[s[0]]] else t.buckets, Unchained(t.next, s, k), t.ids)
  }

  lemma EraseKeepsOther<I>(t: Table<I>, hash: I -> nat, width: nat, c: Chains, b: nat, k: nat, d: nat)
    requires Inv(t, hash, width, c) && b < |c.lists| && k < |c.lists[b]| && d < |c.lists| && d != b
    requires 0 <= c.lists[b][k] < |t.next| && (k > 0 ==> 0 <= c.lists[b][k - 1] < |t.next|)
    ensures ChainOk(Unlinked(t, c.lists[b], b, k), hash, width, Shortened(c, b, k), d)
  {
    var s := c.lists[b];
    assert ChainOk(t, hash, width, c, d);
    assert s[k] in s && (k > 0 ==> s[k - 1] in s);
    OtherChainKeeps(t, Unlinked(t, s, b, k), hash, width, c, b, d);
    assert s[k] !in c.lists[d];
  }

  /** The shortened chain itself. */
  lemma EraseKeepsOwn<I>(t: Table<I>, hash: I -> nat, width: nat, c: Chains, b: nat, k: nat)
    requires Inv(t, hash, width, c) && b < |c.lists| && k < |c.lists[b]|
    ensures var s := c.lists[b];
            && 0 <= s[k] < |t.next| && (k > 0 ==> 0 <= s[k - 1] < |t.next|)
            && ChainOk(Unlinked(t, s, b, k), hash, width, Shortened(c, b, k), b)
  {
    assert ChainOk(t, hash, width, c, b);
    var s := c.lists[b];
    ChainRemove(t.next, t.buckets[b], s, k);
    RemoveAt(s, k);
    var t', c', r := Unlinked(t, s, b, k), Shortened(c, b, k), s[..k] + s[k + 1..];
    assert c'.lists[b] == r;
    forall x | x in r
      ensures 0 <= x < |t'.ids| && x in c'.owner && b == BucketId(hash(t'.ids[x]), c'.owner[x], width)
    {
      assert x in s && x != s[k];
    }
  }

  lemma EraseKeepsOwner<I>(t: Table<I>, hash: I -> nat, width: nat, c: Chains, b: nat, k: nat, y: int)
    requires Inv(t, hash, width, c) && b < |c.lists| && k < |c.lists[b]|
    requires 0 <= c.lists[b][k] < |t.next| && (k > 0 ==> 0 <= c.lists[b][k - 1] < |t.next|)
    requires y in c.owner && y != c.lists[b][k]
    ensures OwnerOk(Unlinked(t, c.lists[b], b, k), hash, width, Shortened(c, b, k), y)
  {
    assert OwnerOk(t, hash, width, c, y) && ChainOk(t, hash, width, c, b);
    RemoveAt(c.lists[b], k);
  }

  lemma EraseKeepsLoose<I>(t: Table<I>, hash: I -> nat, width: nat, c: Chains, b: nat, k: nat, y: int)
    requires Inv(t, hash, width, c) && b < |c.lists| && k < |c.lists[b]| && 0 <= y < |t.next|
    requires 0 <= c.lists[b][k] < |t.next| && (k > 0 ==> 0 <= c.lists[b][k - 1] < |t.next|)
    ensures LooseOk(Unlinked(t, c.lists[b], b, k), Shortened(c, b, k), y)
  {
    assert LooseOk(t, c, y) && ChainOk(t, hash, width, c, b);
    assert k > 0 ==> c.lists[b][k - 1] in c.lists[b];
  }

  lemma EraseKeepsInv<I>(t: Table<I>, hash: I -> nat, width: nat, c: Chains, b: nat, k: nat)
    requires Inv(t, hash, width, c) && b < |c.lists| && k < |c.lists[b]|
    ensures var s := c.lists[b];
            && 0 <= s[k] < |t.next| && (k > 0 ==> 0 <= s[k - 1] < |t.next|)
            && Inv(Unlinked(t, s, b, k), hash, width, Shortened(c, b, k))
  {
    EraseKeepsOwn(t, hash, width, c, b, k);
    var t', c' := Unlinked(t, c.lists[b], b, k), Shortened(c, b, k);
    forall d: nat | d < |c'.lists| ensures ChainOk(t', hash, width, c', d) {
      if d != b {
        EraseKeepsOther(t, hash, width, c, b, k, d);
      }
    }
    forall y | y in c'.owner ensures OwnerOk(t', hash, width, c', y) {
      EraseKeepsOwner(t, hash, width, c, b, k, y);
    }
    forall y | 0 <= y < |t'.next| ensures LooseOk(t', c', y) {
      EraseKeepsLoose(t, hash, width, c, b, k, y);
    }
    forall y, z | SameKey(t', c', y, z) ensures y == z {
      assert SameKey(t, c, y, z);
    }
  }

  /** Only the partition of the changed index changes what it stores. */
  lemma PutContents<I>(t: Table<I>, t': Table<I>, c: Chains, c': Chains, p: nat, x: int, key: I, q: nat)
    requires UniqueKeys(t, c) && UniqueKeys(t', c') && 0 <= x < |t.ids| && x !in c.owner
    requires c'.owner == c.owner[x := p] && t'.ids == t.ids[x := key]
    ensures Contents(t', c', q) == if q == p then Contents(t, c, q)[key := x] else Contents(t, c, q)
  {
    var m, m' := Contents(t, c, q), Contents(t', c', q);
    forall k | k in m && !(q == p && k == key) ensures k in m' && m'[k] == m[k] {
      assert c'.owner[m[k]] == q && t'.ids[m[k]] == k;
      assert SameKey(t', c', m[k], m'[k]);
    }
    if q == p {
      assert c'.owner[x] == q && t'.ids[x] == key;
      assert SameKey(t', c', x, m'[key]);
    }
  }

  lemma EraseContents<I>(t: Table<I>, t': Table<I>, c: Chains, c': Chains, p: nat, x: int, q: nat)
    requires UniqueKeys(t, c) && UniqueKeys(t', c') && x in c.owner && c.owner[x] == p && 0 <= x < |t.ids|
    requires c'.owner == c.owner - {x} && t'.ids == t.ids
    ensures Contents(t', c', q) == if q == p then Contents(t, c, q) - {t.ids[x]} else Contents(t, c, q)
  {
    var m, m' := Contents(t, c, q), Contents(t', c', q);
    forall k | k in m && !(q == p && k == t.ids[x]) ensures k in m' && m'[k] == m[k] {
      assert m[k] in c'.owner;
      assert SameKey(t', c', m[k], m'[k]);
    }
    forall k | k in m' ensures k in m && m[k] == m'[k] && !(q == p && k == t.ids[x]) {
      assert SameKey(t, c, m'[k], m[k]);
      assert !SameKey(t, c, m'[k], x);
    }
  }

  // ---- The map

  class ConcurrentMap<I(==)> {
    const hash: I -> nat
    const width: nat       // buckets per partition
    const partitions: nat
    const buckets: array<int>
    const next: array<int>
    const ids: array<I>
    ghost var chains: Chains

    ghost function View(): Table<I>
      reads buckets, next, ids
    {
      Table(buckets[..], next[..], ids[..])
    }

    ghost predicate Valid()
      reads this, buckets, next, ids
    {
      && IsPowerOfTwo(width) && buckets.Length == partitions * width && buckets != next
      && ids as object != buckets as object && ids as object != next as object
      && Inv(View(), hash, width, chains)
    }

    ghost function Map(p: nat): map<I, int>
      reads this, buckets, next, ids
      requires Valid()
    {
      Contents(View(), chains, p)
    }

    /** `concurrent_map_allocate` with the allocator's cells, when memory suffices. */
    constructor (hash: I -> nat, partitions: nat, width: nat, capacity: nat, blank: I)
      requires IsPowerOfTwo(width)
      ensures Valid() && fresh(buckets) && fresh(next) && fresh(ids)
      ensures this.hash == hash && this.partitions == partitions && this.width == width
      ensures chains.owner == map[] && ids.Length == capacity
      ensures forall p :: Map(p) == map[]
    {
      this.hash := hash;
      this.width := width;
      this.partitions := partitions;
      ProductNonNegative(partitions, width);
      chains := Chains(seq(partitions * width, _ => []), map[]);
      buckets := new int[partitions * width](_ => -1);
      next := new int[capacity](_ => -1);
      ids := new I[capacity](_ => blank);
      new;
      assert forall b: nat {:trigger ChainOk(View(), hash, width, chains, b)} ::
          b < |chains.lists| ==> ChainOk(View(), hash, width, chains, b);
    }

    /** The bucket of a key, which the source computes with a mask and a shift. */
    method Bucket(key: I, p: nat) returns (b: nat)
      requires Valid() && p < partitions
      ensures b == BucketId(hash(key), p, width) < buckets.Length
    {
      BucketIdIsMasked(hash(key), p, width, partitions);
      b := And(hash(key), width - 1) + p * width;
    }

    /** `concurrent_map_get`. */
    method Get(key: I, p: nat) returns (found: bool, index: int)
      requires Valid() && p < partitions
      ensures found <==> key in Map(p)
      ensures found ==> index == Map(p)[key]
    {
      var b := Bucket(key, p);
      ghost var t, s, k := View(), chains.lists[b], 0;
      assert ChainOk(t, hash, width, chains, b);
      StoredOnChain(t, hash, width, chains, p, key);
      assert forall j :: 0 <= j < |s| ==> s[j] in s;
      index := buckets[b];
      while index != -1
        invariant forall j :: 0 <= j < |s| ==> 0 <= s[j]
        invariant 0 <= k <= |s| && index == if k < |s| then s[k] else -1
        invariant forall j :: 0 <= j < k ==> 0 <= s[j] < |t.ids| && t.ids[s[j]] != key
        decreases |s| - k
      {
        assert ChainLink(t.next, s, k);
        ChainIsOwned(t, hash, width, chains, p, hash(key), k);
        if ids[index] == key {
          return true, index;
        }
        index := next[index];
        k := k + 1;
      }
      found := false;
    }

    /** `concurrent_map_put` of a key that the partition does not store, with an index that is in no
        chain. */
    method Put(key: I, p: nat, index: nat)
      requires Valid() && p < partitions && index < ids.Length && index !in chains.owner && key !in Map(p)
      modifies this`chains, buckets, next, ids
      ensures Valid() && chains.owner == old(chains.owner)[index := p]
      ensures ids[..] == old(ids[..])[index := key]
      ensures forall q {:trigger Map(q)} :: Map(q) == if q == p then old(Map(q))[key := index] else old(Map(q))
    {
      var b := Bucket(key, p);
      ghost var t, s := View(), chains.lists[b];
      assert ChainOk(t, hash, width, chains, b);
      PutKeepsInv(t, hash, width, chains, p, index, key);
      assert s != [] ==> ChainLink(t.next, s, 0);
      if buckets[b] == -1 {
        buckets[b] := index;
      } else {
        var entry := LastEntry(b);
        next[entry] := index;
      }
      ids[index] := key;
      ghost var c := chains;
      chains := Extended(chains, b, p, index);
      assert View() == Linked(t, s, b, index, key);
      forall q: nat {
        PutContents(t, View(), c, chains, p, index, key, q);
      }
    }

    /** The loop that finds the end of a chain. */
    method LastEntry(b: nat) returns (entry: int)
      requires Valid() && b < buckets.Length && chains.lists[b] != []
      ensures entry == chains.lists[b][|chains.lists[b]| - 1] && 0 <= entry < next.Length
    {
      ghost var t, s, k := View(), chains.lists[b], 0;
      assert ChainOk(t, hash, width, chains, b);
      assert forall j :: 0 <= j < |s| ==> s[j] in s;
      entry := buckets[b];
      while next[entry] != -1
        invariant 0 <= k < |s| && entry == s[k] && 0 <= entry < next.Length
        invariant forall j :: 0 <= j < |s| ==> 0 <= s[j] < next.Length
        decreases |s| - k
      {
        assert ChainLink(t.next, s, k);
        entry := next[entry];
        k := k + 1;
      }
      assert ChainLink(t.next, s, k);
    }

    /** `concurrent_map_erase` of a key that the partition stores. */
    method Erase(key: I, p: nat)
      requires Valid() && p < partitions && key in Map(p)
      modifies this`chains, buckets, next
      ensures Valid() && chains.owner == old(chains.owner) - {old(Map(p)[key])}
      ensures old(Map(p)[key]) in old(chains.owner)
      ensures forall q {:trigger Map(q)} :: Map(q) == if q == p then old(Map(q)) - {key} else old(Map(q))
    {
      ghost var c, x := chains, Map(p)[key];
      var b := Bucket(key, p);
      ghost var t, s, k := View(), chains.lists[b], 0;
      StoredOnChain(t, hash, width, chains, p, key);
      assert ChainOk(t, hash, width, chains, b);
      assert ChainLink(t.next, s, 0);
      var entry := buckets[b];
      if ids[entry] == key {
        EraseKeepsInv(t, hash, width, chains, b, 0);
        ChainIsOwned(t, hash, width, chains, p, hash(key), 0);
        buckets[b] := next[entry];
        next[entry] := -1;
        chains := Shortened(chains, b, 0);
        assert View() == Unlinked(t, s, b, 0);
      } else {
        var prev;
        entry, prev, k := FindAfterFirst(key, p, b);
        EraseKeepsInv(t, hash, width, chains, b, k);
        ChainIsOwned(t, hash, width, chains, p, hash(key), k);
        next[prev] := next[entry];
        next[entry] := -1;
        chains := Shortened(chains, b, k);
        assert View() == Unlinked(t, s, b, k);
      }
      forall q: nat {
        EraseContents(t, View(), c, chains, p, x, q);
      }
    }

    /** The loop that finds a key behind the first index of its chain. */
    method FindAfterFirst(key: I, p: nat, b: nat) returns (entry: int, prev: int, ghost k: nat)
      requires Valid() && p < partitions && key in Map(p) && b == BucketId(hash(key), p, width) < buckets.Length
      requires chains.lists[b] != [] && 0 <= chains.lists[b][0] < ids.Length && ids[chains.lists[b][0]] != key
      ensures 0 < k < |chains.lists[b]| && entry == chains.lists[b][k] && prev == chains.lists[b][k - 1]
      ensures 0 <= entry < ids.Length && 0 <= prev < ids.Length && ids[entry] == key
    {
      ghost var t, s := View(), chains.lists[b];
      StoredOnChain(t, hash, width, chains, p, key);
      assert ChainOk(t, hash, width, chains, b);
      ghost var j :| 0 <= j < |s| && s[j] == Map(p)[key];
      assert ChainLink(t.next, s, 0) && ChainLink(t.next, s, 1);
      prev := buckets[b];
      entry := next[prev];
      k := 1;
      while ids[entry] != key
        invariant 0 < k <= j < |s| && entry == s[k] && prev == s[k - 1]
        invariant 0 <= entry < ids.Length && 0 <= prev < ids.Length
        decreases j - k
      {
        assert ChainLink(t.next, s, k) && ChainLink(t.next, s, k + 1);
        prev := entry;
        entry := next[entry];
        k := k + 1;
      }
    }
  }

  lemma ProductNonNegative(x: nat, y: nat)
    ensures x * y >= 0
  {
  }
}
