/** The IPv4 16-8-8 trie of nf/common/mtrie.c and nf/common/mtrie.h: the pool of plies, insertion of
    routes and the three lookup steps. */
module Mtrie {
  import opened Arithmetic
  import opened PowersOfTwo
  import opened LongestPrefixMatch
  import opened MultibitTrie

  /** The pool of plies that all tries share: the arrays of ply number `q` start at `256 * q`. */
  class PlyPool {
    const leaves: array<nat>
    const bits: array<nat>
    const nonEmpty: array<int>
    const base: array<nat>
    var index: nat
    ghost var keys: seq<Key>

    ghost predicate Separate()
      reads this
    {
      && leaves != bits && leaves != base && bits != base
      && nonEmpty as object != leaves && nonEmpty as object != bits && nonEmpty as object != base
    }

    ghost function View(): Pool
      reads this, leaves, bits, nonEmpty, base
    {
      Pool(leaves[..], bits[..], nonEmpty[..], base[..], keys)
    }

    ghost predicate Valid()
      reads this, leaves, bits, nonEmpty, base
    {
      Separate() && index == |keys| && PoolOk(View())
    }

    constructor (capacity: nat)
      ensures Valid() && index == 0 && base.Length == capacity
      ensures fresh(leaves) && fresh(bits) && fresh(nonEmpty) && fresh(base)
    {
      leaves := new nat[256 * capacity];
      bits := new nat[256 * capacity];
      nonEmpty := new int[capacity];
      base := new nat[capacity];
      index := 0;
      keys := [];
    }

    /** `ply_8_init`, that is `PLY_INIT`. */
    method PlyInit(c: nat, init: nat, prefixLen: nat, baseLen: nat)
      requires Separate() && Shape(View()) && c < base.Length
      modifies leaves, bits, nonEmpty, base
      ensures nonEmpty[..] == old(nonEmpty[..])[c := if prefixLen > baseLen then 256 else 0]
      ensures base[..] == old(base[..])[c := baseLen]
      ensures forall k :: 0 <= k < bits.Length ==>
                bits[k] == if 256 * c <= k < 256 * c + 256 then prefixLen else old(bits[k])
      ensures forall k :: 0 <= k < leaves.Length ==>
                leaves[k] == if 256 * c <= k < 256 * c + 256 then init else old(leaves[k])
    {
      nonEmpty[c] := if prefixLen > baseLen then 256 else 0;
      for i := 0 to 256
        invariant forall k :: 0 <= k < bits.Length ==>
                    bits[k] == if 256 * c <= k < 256 * c + i then prefixLen else old(bits[k])
        invariant leaves[..] == old(leaves[..]) && base[..] == old(base[..])
        invariant nonEmpty[..] == old(nonEmpty[..])[c := if prefixLen > baseLen then 256 else 0]
      {
        bits[256 * c + i] := prefixLen;
      }
      base[c] := baseLen;
      FillLeaves(c, init);
    }

    /** `PLY_INIT_LEAVES`: four leaves at a time. */
    method FillLeaves(c: nat, init: nat)
      requires Separate() && Shape(View()) && c < base.Length
      modifies leaves
      ensures forall k :: 0 <= k < leaves.Length ==>
                leaves[k] == if 256 * c <= k < 256 * c + 256 then init else old(leaves[k])
    {
      var l := 0;
      while l < 256
        invariant l % 4 == 0 && l <= 256
        invariant forall k :: 0 <= k < leaves.Length ==>
                    leaves[k] == if 256 * c <= k < 256 * c + l then init else old(leaves[k])
      {
        var at := 256 * c + l;
        leaves[at] := init;
        leaves[at + 1] := init;
        leaves[at + 2] := init;
        leaves[at + 3] := init;
        l := l + 4;
      }
    }

    /** `mtrie_vector_get` and `ply_create`.  The source asserts that the pool is not exhausted. */
    method PlyCreate(initLeaf: nat, prefixLen: nat, baseLen: nat, ghost key: Key) returns (leaf: nat)
      requires Separate() && Shape(View()) && index == |keys| < base.Length
      modifies this, leaves, bits, nonEmpty, base
      ensures Separate() && index == |keys|
      ensures Created(old(View()), View(), old(index), baseLen, Slot(initLeaf, prefixLen), key)
      ensures leaf == 2 * old(index)
    {
      var c := index;
      index := index + 1;
      keys := keys + [key];
      PlyInit(c, initLeaf, prefixLen, baseLen);
      leaf := 2 * c;
    }

    /** `ip4_fib_mtrie_leaf_is_non_empty`. */
    method LeafIsNonEmpty(q: nat, s: nat) returns (n: int)
      requires Separate() && Shape(View()) && q < base.Length && s < 256
      ensures n == IsNonEmpty(View(), q, SlotAt(View(), q, s))
    {
      n := if bits[256 * q + s] > base[q] then 1 else 0;
    }

    /** `ip4_fib_mtrie_lookup_step`. */
    method LookupStep(leaf: nat, address: nat, byteIndex: nat) returns (next: nat)
      requires Separate() && Shape(View()) && (byteIndex == 2 || byteIndex == 3)
      requires Terminal(leaf) || leaf / 2 < base.Length
      ensures next == if Terminal(leaf) then leaf
                      else SlotAt(View(), leaf / 2, if byteIndex == 2 then address / 256 % 256
                                                    else address % 256).leaf
    {
      if leaf % 2 != 1 {
        return leaves[256 * (leaf / 2) + (if byteIndex == 2 then address / 256 % 256 else address % 256)];
      }
      return leaf;
    }

    /** `set_ply_with_more_specific_leaf`: `r` is the route behind the new leaf. */
    method SetPlyWithMoreSpecificLeaf(q: nat, newLeaf: nat, len: nat, ghost r: Route)
      requires Valid() && q < |keys| && r.len <= 32
      requires newLeaf == TerminalLeaf(r.adj) && len == r.len <= base[q]
      requires Concerns(r, base[q], keys[q].prefix)
      modifies this, leaves, bits, nonEmpty, base
      ensures Valid() && keys == old(keys)
      ensures Improved(old(View()), View(), q, r)
      decreases 24 - base[q]
    {
      ghost var v0 := View();
      FillNothing(v0, q, r, 0);
      for i := 0 to 256
        invariant Valid() && keys == v0.keys
        invariant Filled(v0, View(), q, r, 0, i)
      {
        ghost var v := View();
        assert PlyOk(v, q) && SlotOk(v, q, i);
        assert v.base[q] == v0.base[q];
        forall low: nat | low < 256 ensures Covers(r, Address(v, q, i, low)) {
          assert InRegion(v.base[q], v.keys[q].prefix, Address(v, q, i, low));
        }
        var oldLeaf := leaves[256 * q + i];
        if oldLeaf % 2 != 1 {
          ChildConcerned(v, q, i, r);
          SetPlyWithMoreSpecificLeaf(oldLeaf / 2, newLeaf, len, r);
          ChildImproved(v, View(), q, i, r);
        } else if len >= bits[256 * q + i] {
          leaves[256 * q + i] := newLeaf;
          bits[256 * q + i] := len;
          var more := LeafIsNonEmpty(q, i);
          nonEmpty[q] := nonEmpty[q] + more;
          ghost var x := Slot(newLeaf, len);
          assert View() == Put(v, q, i, x, v.nonEmpty[q] + more);
          PutSlots(v, q, i, x, v.nonEmpty[q] + more);
          PutKeepsPoolOk(v, q, i, x, v.nonEmpty[q] + more);
          TerminalImproved(v, q, i, r, v.nonEmpty[q] + more);
        } else {
          TerminalImproved(v, q, i, r, 0);
        }
        FillOneMore(v0, v, View(), q, r, 0, i);
      }
      CoveringRouteFillsAll(r, v0.base[q]);
      FillDone(v0, View(), q, r);
    }

    /** `set_leaf`.  The address in `a` is already masked. */
    method SetLeaf(a: Route, q: nat, byteIndex: nat)
      requires Valid() && q < |keys| && IsRoute(a) && Masked(a) == a.dst
      requires base[q] == 8 * byteIndex && Concerns(a, base[q], keys[q].prefix)
      requires index + PliesBelow(View(), q, a) <= base.Length
      modifies this, leaves, bits, nonEmpty, base
      ensures Valid() && |keys| == |old(keys)| + PliesBelow(old(View()), q, a)
      ensures Improved(old(View()), View(), q, a)
      ensures NewOnPath(old(View()), View(), old(keys[q]).trie, a) && DeepBelow(View(), q, a)
      decreases 24 - base[q], 2
    {
      assert PlyOk(View(), q);
      if a.len <= 8 * (byteIndex + 1) {
        FillSlots(a, q, byteIndex);
      } else {
        Descend(a, q, byteIndex);
      }
    }

    /** The branch of `set_leaf` for a route that ends further down. */
    method Descend(a: Route, q: nat, byteIndex: nat)
      requires Valid() && q < |keys| && IsRoute(a) && Masked(a) == a.dst
      requires base[q] == 16 == 8 * byteIndex && Concerns(a, 16, keys[q].prefix) && 24 < a.len
      requires index + PliesBelow(View(), q, a) <= base.Length
      modifies this, leaves, bits, nonEmpty, base
      ensures Valid() && |keys| == |old(keys)| + PliesBelow(old(View()), q, a)
      ensures Improved(old(View()), View(), q, a)
      ensures NewOnPath(old(View()), View(), old(keys[q]).trie, a) && DeepBelow(View(), q, a)
      decreases 24 - base[q], 1
    {
      ghost var v := View();
      var dstByte := a.dst / 256 % 256;
      assert PlyOk(v, q) && SlotOk(v, q, dstByte);
      var oldLeaf := leaves[256 * q + dstByte];
      var child := oldLeaf / 2;
      if oldLeaf % 2 == 1 {
        child := ReplaceByPly(q, dstByte);
      }
      ghost var u := View();
      assert PlyOk(u, q) && SlotOk(u, q, dstByte);
      assert u.base[q] == v.base[q];
      WithinSlotIsWithin(v, v, u, q, dstByte);
      DeepRouteConcernsChild(a, v.keys[q].prefix);
      SetLeaf(a, child, byteIndex + 1);
      ChildImproved(u, View(), q, dstByte, a);
      DescentDone(v, u, View(), q, a);
      DescentPath(v, u, View(), q, a);
    }

    /** The branch of `set_leaf` that puts a new ply behind a slot. */
    method ReplaceByPly(q: nat, s: nat) returns (child: nat)
      requires Valid() && q < |keys| && s < 256 && base[q] == 16
      requires Terminal(SlotAt(View(), q, s).leaf) && index < base.Length
      modifies this, leaves, bits, nonEmpty, base
      ensures Valid() && child == |old(keys)| && |keys| == |old(keys)| + 1
      ensures WithinSlot(old(View()), View(), q, s) && SameView(old(View()), View(), q)
      ensures SlotAt(View(), q, s) == Slot(2 * child, 24)
      ensures forall t: nat :: t < 256 ==> Terminal(SlotAt(View(), child, t).leaf)
    {
      ghost var v := View();
      var less := LeafIsNonEmpty(q, s);
      nonEmpty[q] := nonEmpty[q] - less;
      assert View() == v.(nonEmpty := v.nonEmpty[q := v.nonEmpty[q] - less]);
      ghost var key := Key(v.keys[q].trie, 256 * v.keys[q].prefix + s);
      var newLeaf := PlyCreate(leaves[256 * q + s], bits[256 * q + s], 24, key);
      ghost var u := View();
      Deepen(v, u, q, s);
      leaves[256 * q + s] := newLeaf;
      bits[256 * q + s] := 24;
      var more := LeafIsNonEmpty(q, s);
      nonEmpty[q] := nonEmpty[q] + more;
      assert View() == Put(u, q, s, Slot(newLeaf, 24), u.nonEmpty[q] + 1);
      child := newLeaf / 2;
    }

    /** The branch of `set_leaf` for a route that ends in this ply: fill the slots that it covers. */
    method FillSlots(a: Route, q: nat, byteIndex: nat)
      requires Valid() && q < |keys| && IsRoute(a) && Masked(a) == a.dst
      requires base[q] == 8 * byteIndex && Concerns(a, base[q], keys[q].prefix)
      requires a.len <= 8 * (byteIndex + 1)
      modifies this, leaves, bits, nonEmpty, base
      ensures Valid() && keys == old(keys)
      ensures Improved(old(View()), View(), q, a)
      decreases 24 - base[q], 1
    {
      ghost var v0 := View();
      assert PlyOk(v0, q);
      var nBits := if 8 < 8 * (byteIndex + 1) - a.len then 8 else 8 * (byteIndex + 1) - a.len;
      var dstByte := if byteIndex == 2 then a.dst / 256 % 256 else a.dst % 256;
      var end := dstByte + Pow2(nBits);
      FilledSlotsAreCovered(v0, q, a, 0, 0);
      FillNothing(v0, q, a, dstByte);
      for i := dstByte to end
        invariant Valid() && keys == v0.keys
        invariant Filled(v0, View(), q, a, dstByte, i)
      {
        ghost var v := View();
        assert v.base[q] == v0.base[q] && end <= 256;
        FillSlot(a, q, byteIndex, i);
        FillOneMore(v0, v, View(), q, a, dstByte, i);
      }
      FillDone(v0, View(), q, a);
    }

    /** The body of that branch's loop. */
    method FillSlot(a: Route, q: nat, byteIndex: nat, i: nat)
      requires Valid() && q < |keys| && IsRoute(a) && Masked(a) == a.dst
      requires base[q] == 8 * byteIndex && Concerns(a, base[q], keys[q].prefix)
      requires a.len <= 8 * (byteIndex + 1)
      requires FirstSlot(a, base[q]) <= i < FirstSlot(a, base[q]) + Pow2(FillBits(a, base[q]))
      requires i < 256
      modifies this, leaves, bits, nonEmpty, base
      ensures Valid() && keys == old(keys)
      ensures WithinSlot(old(View()), View(), q, i) && SlotImproved(old(View()), View(), q, i, a)
      decreases 24 - base[q], 0
    {
      ghost var v := View();
      assert PlyOk(v, q) && SlotOk(v, q, i);
      forall low: nat | low < 256 ensures Covers(a, Address(v, q, i, low)) {
        FilledSlotsAreCovered(v, q, a, i, low);
      }
      var oldLeaf := leaves[256 * q + i];
      if a.len >= bits[256 * q + i] {
        var newLeaf := TerminalLeaf(a.adj);
        if oldLeaf % 2 == 1 {
          var less := LeafIsNonEmpty(q, i);
          nonEmpty[q] := nonEmpty[q] - less;
          bits[256 * q + i] := a.len;
          leaves[256 * q + i] := newLeaf;
          var more := LeafIsNonEmpty(q, i);
          nonEmpty[q] := nonEmpty[q] + more;
          ghost var x, n := Slot(newLeaf, a.len), v.nonEmpty[q] - less + more;
          assert View() == Put(v, q, i, x, n);
          PutSlots(v, q, i, x, n);
          PutKeepsPoolOk(v, q, i, x, n);
          TerminalImproved(v, q, i, a, n);
        } else {
          ChildConcerned(v, q, i, a);
          SetPlyWithMoreSpecificLeaf(oldLeaf / 2, newLeaf, a.len, a);
          ChildImproved(v, View(), q, i, a);
        }
      } else if oldLeaf % 2 != 1 {
        ChildConcerned(v, q, i, a);
        SetLeaf(a, oldLeaf / 2, byteIndex + 1);
        ChildImproved(v, View(), q, i, a);
      } else {
        TerminalImproved(v, q, i, a, 0);
      }
    }
  }

  /** A route that covers the slot covers the whole ply behind it. */
  lemma ChildConcerned(v: Pool, q: nat, s: nat, r: Route)
    requires Shape(v) && q < |v.keys| && v.base[q] == 16 && s < 256 && r.len <= 24
    requires forall low: nat :: low < 256 ==> Covers(r, Address(v, q, s, low))
    ensures Concerns(r, 24, 256 * v.keys[q].prefix + s)
  {
    forall a: nat | InRegion(24, 256 * v.keys[q].prefix + s, a) ensures Covers(r, a) {
      assert a == Address(v, q, s, a % 256);
    }
  }

  /** One trie: its root ply.  `id` tells the tries on one pool apart. */
  class Trie {
    const rootLeaves: array<nat>
    const rootBits: array<nat>
    const id: nat

    ghost function View(): Root
      reads this, rootLeaves, rootBits
    {
      Root(rootLeaves[..], rootBits[..])
    }

    /** The trie's root arrays are its own. */
    ghost predicate Apart(pool: PlyPool)
      reads this
    {
      && rootLeaves != rootBits
      && rootLeaves != pool.leaves && rootLeaves != pool.bits && rootLeaves != pool.base
      && rootBits != pool.leaves && rootBits != pool.bits && rootBits != pool.base
      && rootLeaves as object != pool.nonEmpty && rootBits as object != pool.nonEmpty
    }

    /** On this pool, the trie answers lookups as longest-prefix match over the routes. */
    ghost predicate Represents(pool: PlyPool, routes: seq<Route>)
      requires forall r :: r in routes ==> r.len <= 32
      reads this, rootLeaves, rootBits, pool, pool.leaves, pool.bits, pool.nonEmpty, pool.base
    {
      && pool.Valid() && Apart(pool) && RootOk(View(), id, pool.View())
      && forall a: nat {:trigger Resolve(View(), pool.View(), a)} :: a < UINT32 ==>
           Resolve(View(), pool.View(), a) == Best(routes, a)
    }

    /** `ip4_mtrie_init` of a trie that is to use the pool. */
    constructor (pool: PlyPool, id: nat)
      requires pool.Valid()
      ensures fresh(rootLeaves) && fresh(rootBits) && this.id == id
      ensures Represents(pool, [])
    {
      this.id := id;
      rootBits := new nat[65536](_ => 0);
      rootLeaves := new nat[65536](_ => 1);
      new;
      forall s: nat | s < 65536 ensures RootSlotOk(View(), id, pool.View(), s) {
      }
    }

    /** `ip4_fib_mtrie_route_add`. */
    method RouteAdd(pool: PlyPool, r: Route, ghost routes: seq<Route>)
      requires IsRoute(r) && forall x :: x in routes ==> x.len <= 32
      requires Represents(pool, routes)
      requires pool.index + PliesNeeded(View(), pool.View(), r) <= pool.base.Length
      modifies rootLeaves, rootBits, pool, pool.leaves, pool.bits, pool.nonEmpty, pool.base
      ensures Represents(pool, routes + [r])
      ensures pool.index == old(pool.index) + old(PliesNeeded(View(), pool.View(), r))
      ensures WithinTrie(old(pool.View()), pool.View(), id)
      ensures RootStaysDeep(old(View()), View()) && NewOnPath(old(pool.View()), pool.View(), id, r)
      ensures PathDeep(View(), pool.View(), r)
    {
      ghost var m, v := View(), pool.View();
      MaskedRoute(r);
      var a := r.(dst := Masked(r));
      SamePath(r, a);
      SetRootLeaf(pool, a);
      assert (routes + [r])[..|routes|] == routes;
      forall x: nat | x < UINT32
        ensures Resolve(View(), pool.View(), x) == Best(routes + [r], x)
      {
        assert Resolve(View(), pool.View(), x) == Improve(a, Resolve(m, v, x), x);
        assert Resolve(m, v, x) == Best(routes, x);
      }
    }

    /** `set_root_leaf`.  The address in `a` is already masked. */
    method SetRootLeaf(pool: PlyPool, a: Route)
      requires pool.Valid() && Apart(pool) && RootOk(View(), id, pool.View())
      requires IsRoute(a) && Masked(a) == a.dst
      requires pool.index + PliesNeeded(View(), pool.View(), a) <= pool.base.Length
      modifies rootLeaves, rootBits, pool, pool.leaves, pool.bits, pool.nonEmpty, pool.base
      ensures pool.Valid() && RootOk(View(), id, pool.View())
      ensures TrieImproved(old(View()), old(pool.View()), View(), pool.View(), a)
      ensures pool.index == old(pool.index) + old(PliesNeeded(View(), pool.View(), a))
      ensures WithinTrie(old(pool.View()), pool.View(), id)
      ensures RootStaysDeep(old(View()), View()) && NewOnPath(old(pool.View()), pool.View(), id, a)
      ensures PathDeep(View(), pool.View(), a)
    {
      if a.len <= 16 {
        FillRootSlots(pool, a);
      } else {
        DescendFromRoot(pool, a);
      }
    }

    /** The branch of `set_root_leaf` for a route that ends in the root ply. */
    method FillRootSlots(pool: PlyPool, a: Route)
      requires pool.Valid() && Apart(pool) && RootOk(View(), id, pool.View())
      requires IsRoute(a) && Masked(a) == a.dst && a.len <= 16
      modifies rootLeaves, rootBits, pool, pool.leaves, pool.bits, pool.nonEmpty, pool.base
      ensures pool.Valid() && RootOk(View(), id, pool.View())
      ensures TrieImproved(old(View()), old(pool.View()), View(), pool.View(), a)
      ensures pool.index == old(pool.index) + old(PliesNeeded(View(), pool.View(), a))
      ensures WithinTrie(old(pool.View()), pool.View(), id)
      ensures RootStaysDeep(old(View()), View()) && NewOnPath(old(pool.View()), pool.View(), id, a)
      ensures PathDeep(View(), pool.View(), a)
    {
      ghost var m, v := View(), pool.View();
      var dstByte := a.dst / 65536;
      RootRange(a);
      for i := dstByte to dstByte + Pow2(16 - a.len)
        invariant pool.Valid() && RootOk(View(), id, pool.View()) && pool.keys == v.keys
        invariant RootFilled(m, v, View(), pool.View(), id, a, dstByte, i) && RootStaysDeep(m, View())
      {
        ghost var n, u := View(), pool.View();
        FillRootSlot(pool, a, i);
        RootFillOneMore(m, v, n, u, View(), pool.View(), id, a, dstByte, i);
      }
      RootFillDone(m, v, View(), pool.View(), id, a);
    }

    /** The branch of `set_root_leaf` for a route that ends further down. */
    method DescendFromRoot(pool: PlyPool, a: Route)
      requires pool.Valid() && Apart(pool) && RootOk(View(), id, pool.View())
      requires IsRoute(a) && Masked(a) == a.dst && 16 < a.len
      requires pool.index + PliesNeeded(View(), pool.View(), a) <= pool.base.Length
      modifies rootLeaves, rootBits, pool, pool.leaves, pool.bits, pool.nonEmpty, pool.base
      ensures pool.Valid() && RootOk(View(), id, pool.View())
      ensures TrieImproved(old(View()), old(pool.View()), View(), pool.View(), a)
      ensures pool.index == old(pool.index) + old(PliesNeeded(View(), pool.View(), a))
      ensures WithinTrie(old(pool.View()), pool.View(), id)
      ensures RootStaysDeep(old(View()), View()) && NewOnPath(old(pool.View()), pool.View(), id, a)
      ensures PathDeep(View(), pool.View(), a)
    {
      ghost var m, v := View(), pool.View();
      var dstByte := a.dst / 65536;
      RouteConcernsRootSlot(a);
      assert RootSlotOk(m, id, v, dstByte);
      var child := rootLeaves[dstByte] / 2;
      if rootLeaves[dstByte] % 2 == 1 {
        child := ReplaceRootByPly(pool, dstByte);
      }
      ghost var n, u := View(), pool.View();
      assert RootSlotOk(n, id, u, dstByte);
      pool.SetLeaf(a, child, 2);
      RootDescentOk(m, v, n, u, pool.View(), id, a);
    }

    /** The part of that branch that puts a new ply behind a root slot. */
    method ReplaceRootByPly(pool: PlyPool, s: nat) returns (child: nat)
      requires pool.Valid() && Apart(pool) && RootOk(View(), id, pool.View())
      requires s < 65536 && Terminal(rootLeaves[s]) && pool.index < pool.base.Length
      modifies rootLeaves, rootBits, pool, pool.leaves, pool.bits, pool.nonEmpty, pool.base
      ensures pool.Valid() && RootOk(View(), id, pool.View())
      ensures child == old(pool.index) && pool.index == child + 1
      ensures View().leaves[s] == 2 * child && RootStaysDeep(old(View()), View())
      ensures forall t: nat :: t < 256 ==> Terminal(SlotAt(pool.View(), child, t).leaf)
      ensures forall a: nat {:trigger Resolve(View(), pool.View(), a)} :: a < UINT32 ==>
                Resolve(View(), pool.View(), a) == Resolve(old(View()), old(pool.View()), a)
      ensures WithinTrie(old(pool.View()), pool.View(), id)
    {
      ghost var m, v := View(), pool.View();
      var newLeaf := pool.PlyCreate(rootLeaves[s], rootBits[s], 16, Key(id, s));
      RootDeepen(m, id, v, pool.View(), s);
      rootLeaves[s] := newLeaf;
      rootBits[s] := 16;
      child := newLeaf / 2;
      assert View() == Root(m.leaves[s := newLeaf], m.bits[s := 16]);
    }

    /** The body of the loop of `set_root_leaf`. */
    method FillRootSlot(pool: PlyPool, a: Route, slot: nat)
      requires pool.Valid() && Apart(pool) && RootOk(View(), id, pool.View())
      requires IsRoute(a) && Masked(a) == a.dst && a.len <= 16 && slot < 65536
      requires a.dst / 65536 <= slot < a.dst / 65536 + Pow2(16 - a.len)
      modifies rootLeaves, rootBits, pool, pool.leaves, pool.bits, pool.nonEmpty, pool.base
      ensures pool.Valid() && RootOk(View(), id, pool.View()) && pool.keys == old(pool.keys)
      ensures WithinRootSlot(old(pool.View()), pool.View(), id, slot)
      ensures RootSlotImproved(old(View()), old(pool.View()), View(), pool.View(), slot, a)
      ensures View().leaves == old(View()).leaves[slot := View().leaves[slot]]
      ensures !Terminal(old(rootLeaves[slot])) ==> rootLeaves[slot] == old(rootLeaves[slot])
      ensures View().bits == old(View()).bits[slot := View().bits[slot]]
    {
      ghost var m, v := View(), pool.View();
      assert RootSlotOk(m, id, v, slot);
      forall mid: nat, low: nat | mid < 256 && low < 256
        ensures Covers(a, RootAddress(slot, mid, low))
      {
        RootSlotsAreCovered(a, slot, mid, low);
      }
      var oldLeaf := rootLeaves[slot];
      if a.len >= rootBits[slot] {
        var newLeaf := TerminalLeaf(a.adj);
        if oldLeaf % 2 == 1 {
          rootBits[slot] := a.len;
          rootLeaves[slot] := newLeaf;
          forall s: nat | s < 65536 ensures RootSlotOk(View(), id, v, s) {
            assert RootSlotOk(m, id, v, s);
          }
        } else {
          RootChildConcerned(m, id, v, slot, a);
          pool.SetPlyWithMoreSpecificLeaf(oldLeaf / 2, newLeaf, a.len, a);
          RootChildImproved(m, id, v, pool.View(), slot, a);
          RootOkGrows(m, id, v, pool.View());
        }
      } else if oldLeaf % 2 != 1 {
        RootChildConcerned(m, id, v, slot, a);
        pool.SetLeaf(a, oldLeaf / 2, 2);
        RootChildImproved(m, id, v, pool.View(), slot, a);
        RootOkGrows(m, id, v, pool.View());
      }
    }

    /** The three lookup steps: an adjacency, and the leaf that carries it. */
    method Lookup(pool: PlyPool, address: nat, ghost routes: seq<Route>) returns (adj: nat, leaf: nat)
      requires forall x :: x in routes ==> x.len <= 32
      requires Represents(pool, routes) && address < UINT32
      ensures Terminal(leaf) && leaf == Best(routes, address).leaf
      ensures (forall r :: r in routes ==> !Covers(r, address)) ==> adj == 0
      ensures forall i :: LongestMatch(routes, address, i) ==> adj == routes[i].adj % 0x8000_0000
    {
      ghost var best := BestIsLongestMatch(routes, address);
      assert forall i :: LongestMatch(routes, address, i) ==> routes[i] in routes;
      assert Resolve(View(), pool.View(), address) == Best(routes, address);
      ResolvesToTerminal(View(), id, pool.View(), address);
      assert RootSlotOk(View(), id, pool.View(), address / 65536);
      leaf := rootLeaves[address / 65536];
      leaf := pool.LookupStep(leaf, address, 2);
      leaf := pool.LookupStep(leaf, address, 3);
      adj := leaf / 2;
    }
  }

  lemma RootRange(a: Route)
    requires IsRoute(a) && Masked(a) == a.dst && a.len <= 16
    ensures a.dst / 65536 + Pow2(16 - a.len) <= 65536
  {
    RootSlotsAreCovered(a, 0, 0, 0);
  }

  lemma RouteConcernsRootSlot(a: Route)
    requires IsRoute(a) && Masked(a) == a.dst && 16 < a.len
    ensures a.dst / 65536 < 65536 && Concerns(a, 16, a.dst / 65536)
  {
  }

  lemma RootChildConcerned(m: Root, id: nat, v: Pool, slot: nat, r: Route)
    requires RootOk(m, id, v) && slot < 65536 && !Terminal(m.leaves[slot]) && r.len <= 16
    requires forall mid: nat, low: nat :: mid < 256 && low < 256 ==>
               Covers(r, RootAddress(slot, mid, low))
    ensures Concerns(r, 16, slot)
  {
    forall a: nat | InRegion(16, slot, a) ensures Covers(r, a) {
      AddressBytes(a);
    }
  }

  /** Masking the address of a route does not change which addresses it covers. */
  lemma MaskedRoute(r: Route)
    requires IsRoute(r)
    ensures var a := r.(dst := Masked(r));
            && IsRoute(a) && Masked(a) == a.dst
            && Masked(a) == Masked(r) && (r.len > 16 ==> a.dst / 65536 == r.dst / 65536)
            && (r.len > 24 ==> a.dst / 256 == r.dst / 256)
            && forall x :: Covers(a, x) == Covers(r, x)
  {
    CoversIsRange(r, 0);
    var t := MaskedMultiple(r);
    RemainderUnique(Masked(r), Span(r.len), t, 0);
    RemainderUnique(r.dst, Span(r.len), t, r.dst % Span(r.len));
    if r.len > 16 {
      LongRouteFits(r);
      SameRootUnit(Masked(r), r.dst, Span(r.len));
    }
    if r.len > 24 {
      DeepRouteFits(r);
      SameUnit(Masked(r), r.dst, Span(r.len));
    }
  }
}
