/** Several tries on one pool of plies. */
module MtrieShared {
  import opened PowersOfTwo
  import opened LongestPrefixMatch
  import opened MultibitTrie
  import opened Mtrie

  /** The tries have ids and root arrays of their own. */
  ghost predicate Separate(tries: seq<Trie>) {
    forall i, j {:trigger tries[i], tries[j]} :: 0 <= i < |tries| && 0 <= j < |tries| && i != j ==>
      && tries[i].id != tries[j].id
      && tries[i].rootLeaves != tries[j].rootLeaves && tries[i].rootLeaves != tries[j].rootBits
      && tries[i].rootBits != tries[j].rootBits && tries[i] != tries[j]
  }

  predicate ShortEnough(routes: seq<Route>) {
    forall r :: r in routes ==> r.len <= 32
  }

  /** Another trie does not notice an addition. */
  lemma StillRepresents(m: Root, id: nat, v: Pool, w: Pool, other: nat, routes: seq<Route>)
    requires PoolOk(v) && RootOk(m, id, v) && WithinTrie(v, w, other) && other != id && ShortEnough(routes)
    requires forall a: nat {:trigger Resolve(m, v, a)} :: a < UINT32 ==> Resolve(m, v, a) == Best(routes, a)
    ensures RootOk(m, id, w)
    ensures forall a: nat {:trigger Resolve(m, w, a)} :: a < UINT32 ==> Resolve(m, w, a) == Best(routes, a)
  {
    OtherTrieKeeps(m, id, v, w, other, 0);
    forall a: nat | a < UINT32 ensures Resolve(m, w, a) == Best(routes, a) {
      OtherTrieKeeps(m, id, v, w, other, a);
      assert Resolve(m, v, a) == Best(routes, a);
    }
  }

  // ---- How many plies a trie has

  ghost predicate Routes(routes: seq<Route>) {
    forall r :: r in routes ==> IsRoute(r)
  }

  /** Some route ends behind root slot `s`. */
  ghost predicate NeedsRootChild(routes: seq<Route>, s: nat) {
    exists r :: r in routes && r.len > 16 && r.dst / 65536 == s
  }

  /** Some route ends behind the slot of the 24-bit prefix `x`. */
  ghost predicate NeedsChild(routes: seq<Route>, x: nat) {
    exists r :: r in routes && r.len > 24 && r.dst / 256 == x
  }

  /** The plies that another route needs: one for its first 16 bits if it is longer than these and no route
      has needed that one, and one for its first 24 bits likewise. */
  ghost function FreshPlies(routes: seq<Route>, r: Route): (n: nat) {
    (if r.len > 16 && !NeedsRootChild(routes, r.dst / 65536) then 1 else 0) +
    (if r.len > 24 && !NeedsChild(routes, r.dst / 256) then 1 else 0)
  }

  /** The plies that the routes need are there. */
  ghost predicate AllDeep(m: Root, v: Pool, routes: seq<Route>)
    requires Shape(v) && |m.leaves| == |m.bits| == 65536 && Routes(routes)
  {
    forall r {:trigger PathDeep(m, v, r)} :: r in routes ==> PathDeep(m, v, r)
  }

  /** Some of the routes needs ply `c`. */
  ghost predicate Needed(v: Pool, c: nat, id: nat, routes: seq<Route>)
    requires Shape(v) && c < |v.keys|
  {
    exists r :: r in routes && OnPath(v, c, id, r)
  }

  /** The trie has no other plies. */
  ghost predicate AllNeeded(v: Pool, id: nat, routes: seq<Route>)
    requires Shape(v)
  {
    forall c: nat {:trigger Needed(v, c, id, routes)} ::
      c < |v.keys| && v.keys[c].trie == id ==> Needed(v, c, id, routes)
  }

  lemma FirstSlotOfRoute(r: Route)
    requires IsRoute(r) && r.len > 24
    ensures FirstSlot(r, 16) == r.dst / 256 % 256 && r.dst / 256 / 256 == r.dst / 65536
    ensures 256 * (r.dst / 65536) + r.dst / 256 % 256 == r.dst / 256
  {
    MaskedRoute(r);
  }

  /** A ply that is there already is not needed again. */
  lemma EnoughPlies(m: Root, v: Pool, id: nat, routes: seq<Route>, r: Route)
    requires PoolOk(v) && RootOk(m, id, v) && Routes(routes) && AllDeep(m, v, routes) && IsRoute(r)
    ensures PliesNeeded(m, v, r) <= FreshPlies(routes, r)
  {
    if r.len > 16 && NeedsRootChild(routes, r.dst / 65536) {
      var x :| x in routes && x.len > 16 && x.dst / 65536 == r.dst / 65536;
      assert PathDeep(m, v, x);
    }
    if r.len > 24 {
      FirstSlotOfRoute(r);
      if NeedsChild(routes, r.dst / 256) {
        var x :| x in routes && x.len > 24 && x.dst / 256 == r.dst / 256;
        FirstSlotOfRoute(x);
        assert PathDeep(m, v, x);
        assert RootSlotOk(m, id, v, r.dst / 65536);
      }
    }
  }

  /** ... and one that is not there is. */
  lemma NoPliesToSpare(m: Root, v: Pool, id: nat, routes: seq<Route>, r: Route)
    requires PoolOk(v) && RootOk(m, id, v) && AllNeeded(v, id, routes) && IsRoute(r)
    ensures PliesNeeded(m, v, r) >= FreshPlies(routes, r)
  {
    var s := r.dst / 65536;
    if r.len > 16 {
      var leaf := m.leaves[s];
      assert RootSlotOk(m, id, v, s);
      if !Terminal(leaf) {
        var c := leaf / 2;
        assert Needed(v, c, id, routes);
        if r.len > 24 {
          FirstSlotOfRoute(r);
          assert PlyOk(v, c) && SlotOk(v, c, r.dst / 256 % 256);
          var x := SlotAt(v, c, r.dst / 256 % 256);
          if !Terminal(x.leaf) {
            assert Needed(v, x.leaf / 2, id, routes);
          }
        }
      }
    }
  }

  /** What an addition of `r` to a trie does to its plies. */
  lemma AdditionPlaced(m: Root, v: Pool, n: Root, w: Pool, id: nat, routes: seq<Route>, r: Route)
    requires Shape(v) && |m.leaves| == |m.bits| == 65536 && |n.leaves| == |n.bits| == 65536
    requires Grows(v, w) && RootStaysDeep(m, n) && Routes(routes) && IsRoute(r)
    requires NewOnPath(v, w, id, r) && PathDeep(n, w, r)
    ensures AllDeep(m, v, routes) ==> AllDeep(n, w, routes + [r])
    ensures AllNeeded(v, id, routes) ==> AllNeeded(w, id, routes + [r])
  {
    if AllDeep(m, v, routes) {
      forall x | x in routes + [r] ensures PathDeep(n, w, x) {
        if x in routes {
          PathStaysDeep(m, v, n, w, x);
        }
      }
    }
    if AllNeeded(v, id, routes) {
      forall c: nat | c < |w.keys| && w.keys[c].trie == id ensures Needed(w, c, id, routes + [r]) {
        if c < |v.keys| {
          assert Needed(v, c, id, routes);
          var x :| x in routes && OnPath(v, c, id, x);
          assert w.base[c] == v.base[c] && OnPath(w, c, id, x);
          assert x in routes + [r];
        } else {
          assert OnPath(w, c, id, r) && r in routes + [r];
        }
      }
    }
  }

  /** An addition to another trie leaves this one's plies alone. */
  lemma OthersPlaced(m: Root, v: Pool, w: Pool, id: nat, other: nat, routes: seq<Route>, r: Route)
    requires Shape(v) && |m.leaves| == |m.bits| == 65536 && Grows(v, w) && Routes(routes)
    requires NewOnPath(v, w, other, r) && other != id
    ensures AllDeep(m, v, routes) ==> AllDeep(m, w, routes)
    ensures AllNeeded(v, id, routes) ==> AllNeeded(w, id, routes)
  {
    if AllDeep(m, v, routes) {
      forall x | x in routes ensures PathDeep(m, w, x) {
        PathStaysDeep(m, v, m, w, x);
      }
    }
    if AllNeeded(v, id, routes) {
      forall c: nat | c < |w.keys| && w.keys[c].trie == id ensures Needed(w, c, id, routes) {
        assert c >= |v.keys| ==> OnPath(w, c, other, r);
        assert Needed(v, c, id, routes);
        var x :| x in routes && OnPath(v, c, id, x);
        assert w.base[c] == v.base[c] && OnPath(w, c, id, x);
      }
    }
  }

  // ---- Additions to any of the tries, in any order

  datatype Addition = Addition(trie: nat, route: Route)

  ghost predicate Additions(adds: seq<Addition>, n: nat) {
    forall k :: 0 <= k < |adds| ==> adds[k].trie < n && IsRoute(adds[k].route)
  }

  /** The routes that have been added to trie `i`. */
  ghost function RoutesOf(adds: seq<Addition>, n: nat, i: nat): (routes: seq<Route>)
    requires Additions(adds, n)
    ensures ShortEnough(routes) && Routes(routes)
  {
    if adds == [] then []
    else
      var last := adds[|adds| - 1];
      RoutesOf(adds[..|adds| - 1], n, i) + if last.trie == i then [last.route] else []
  }

  /** How many plies a sequence of additions takes from the pool. */
  ghost function PliesOf(adds: seq<Addition>, n: nat): nat
    requires Additions(adds, n)
  {
    if adds == [] then 0
    else
      var rest, last := adds[..|adds| - 1], adds[|adds| - 1];
      PliesOf(rest, n) + FreshPlies(RoutesOf(rest, n, last.trie), last.route)
  }

  /** At most two for each, and none for routes of at most 16 bits. */
  lemma {:induction false} AtMostTwoEach(adds: seq<Addition>, n: nat)
    requires Additions(adds, n)
    ensures PliesOf(adds, n) <= 2 * |adds|
    ensures (forall k :: 0 <= k < |adds| ==> adds[k].route.len <= 16) ==> PliesOf(adds, n) == 0
  {
    if adds != [] {
      AtMostTwoEach(adds[..|adds| - 1], n);
    }
  }

  lemma {:induction false} PliesOfMore(adds: seq<Addition>, n: nat, k: nat)
    requires Additions(adds, n) && k <= |adds|
    ensures PliesOf(adds[..k], n) <= PliesOf(adds, n)
  {
    if k < |adds| {
      var rest := adds[..|adds| - 1];
      PliesOfMore(rest, n, k);
      assert rest[..k] == adds[..k];
    } else {
      assert adds[..k] == adds;
    }
  }

  ghost predicate AllRepresent(pool: PlyPool, tries: seq<Trie>, adds: seq<Addition>)
    requires Additions(adds, |tries|)
    reads pool, pool.leaves, pool.bits, pool.nonEmpty, pool.base
    reads set i | 0 <= i < |tries| :: tries[i]
    reads set i | 0 <= i < |tries| :: tries[i].rootLeaves
    reads set i | 0 <= i < |tries| :: tries[i].rootBits
  {
    forall i {:trigger tries[i]} :: 0 <= i < |tries| ==> tries[i].Represents(pool, RoutesOf(adds, |tries|, i))
  }

  /** Also, the plies that the tries' routes need are there. */
  ghost predicate AllPlaced(pool: PlyPool, tries: seq<Trie>, adds: seq<Addition>)
    requires Additions(adds, |tries|)
    reads pool, pool.leaves, pool.bits, pool.nonEmpty, pool.base
    reads set i | 0 <= i < |tries| :: tries[i]
    reads set i | 0 <= i < |tries| :: tries[i].rootLeaves
    reads set i | 0 <= i < |tries| :: tries[i].rootBits
  {
    forall i {:trigger tries[i]} :: 0 <= i < |tries| ==>
      tries[i].Represents(pool, RoutesOf(adds, |tries|, i)) &&
      AllDeep(tries[i].View(), pool.View(), RoutesOf(adds, |tries|, i))
  }

  /** The tries have no other plies. */
  ghost predicate AllTight(pool: PlyPool, tries: seq<Trie>, adds: seq<Addition>)
    requires Additions(adds, |tries|)
    reads pool, pool.leaves, pool.bits, pool.nonEmpty, pool.base
    reads set i | 0 <= i < |tries| :: tries[i]
  {
    pool.Valid() &&
    forall i {:trigger tries[i]} :: 0 <= i < |tries| ==>
      AllNeeded(pool.View(), tries[i].id, RoutesOf(adds, |tries|, i))
  }

  /** Whatever is added to which trie, every trie answers lookups by its own routes.  The additions take from
      the pool no more plies than their routes need, and exactly those when the tries have none before. */
  method AddAll(pool: PlyPool, tries: seq<Trie>, adds: seq<Addition>)
    requires Separate(tries) && Additions(adds, |tries|) && AllRepresent(pool, tries, [])
    requires pool.Valid() && pool.index + PliesOf(adds, |tries|) <= pool.base.Length
    modifies pool, pool.leaves, pool.bits, pool.nonEmpty, pool.base
    modifies set i | 0 <= i < |tries| :: tries[i].rootLeaves
    modifies set i | 0 <= i < |tries| :: tries[i].rootBits
    ensures AllRepresent(pool, tries, adds) && pool.index <= old(pool.index) + PliesOf(adds, |tries|)
    ensures old(forall c, i :: 0 <= c < |pool.keys| && 0 <= i < |tries| ==> pool.keys[c].trie != tries[i].id) ==>
              pool.index == old(pool.index) + PliesOf(adds, |tries|)
  {
    ghost var n := |tries|;
    ghost var tight := AllTight(pool, tries, []);
    for k := 0 to |adds|
      invariant pool.Valid() && AllPlaced(pool, tries, adds[..k])
      invariant tight ==> AllTight(pool, tries, adds[..k])
      invariant pool.index <= old(pool.index) + PliesOf(adds[..k], n)
      invariant tight ==> pool.index == old(pool.index) + PliesOf(adds[..k], n)
    {
      assert adds[..k + 1] == adds[..k] + [adds[k]] && adds[..k + 1][..k] == adds[..k];
      PliesOfMore(adds, n, k + 1);
      AddOne(pool, tries, adds[..k], adds[k]);
    }
    assert adds[..|adds|] == adds;
  }

  method AddOne(pool: PlyPool, tries: seq<Trie>, ghost adds: seq<Addition>, add: Addition)
    requires Separate(tries) && Additions(adds + [add], |tries|) && Additions(adds, |tries|)
    requires AllPlaced(pool, tries, adds) && add.trie < |tries|
    requires IsRoute(add.route)
    requires pool.index + FreshPlies(RoutesOf(adds, |tries|, add.trie), add.route) <= pool.base.Length
    modifies tries[add.trie].rootLeaves, tries[add.trie].rootBits
    modifies pool, pool.leaves, pool.bits, pool.nonEmpty, pool.base
    ensures pool.Valid() && AllPlaced(pool, tries, adds + [add])
    ensures pool.index <= old(pool.index) + FreshPlies(RoutesOf(adds, |tries|, add.trie), add.route)
    ensures old(AllTight(pool, tries, adds)) ==>
              && AllTight(pool, tries, adds + [add])
              && pool.index == old(pool.index) + FreshPlies(RoutesOf(adds, |tries|, add.trie), add.route)
  {
    ghost var v, n := pool.View(), |tries|;
    var t := tries[add.trie];
    ghost var m, routes := t.View(), RoutesOf(adds, n, add.trie);
    ghost var tight := AllTight(pool, tries, adds);
    EnoughPlies(m, v, t.id, routes, add.route);
    if tight {
      NoPliesToSpare(m, v, t.id, routes, add.route);
    }
    t.RouteAdd(pool, add.route, routes);
    assert (adds + [add])[..|adds|] == adds;
    AdditionPlaced(m, v, t.View(), pool.View(), t.id, routes, add.route);
    forall i | 0 <= i < n
      ensures tries[i].Represents(pool, RoutesOf(adds + [add], n, i))
      ensures AllDeep(tries[i].View(), pool.View(), RoutesOf(adds + [add], n, i))
      ensures tight ==> AllNeeded(pool.View(), tries[i].id, RoutesOf(adds + [add], n, i))
    {
      if i != add.trie {
        assert tries[i].View() == old(tries[i].View());
        StillRepresents(tries[i].View(), tries[i].id, v, pool.View(), t.id, RoutesOf(adds, n, i));
        OthersPlaced(tries[i].View(), v, pool.View(), tries[i].id, t.id, RoutesOf(adds, n, i), add.route);
        assert RoutesOf(adds + [add], n, i) == RoutesOf(adds, n, i);
      }
    }
  }
}
