/** The MAC table when the clocks of the cores are not in step: each core reads its own clock, so that packets
    and expiration passes may come with times that go back and forth. */
module MacClocks {
  import opened CellLists
  import opened DchainExp
  import opened MacTable

  /** A packet keeps the rings sorted when its time is not before the latest one on its ring. */
  lemma HandledStaysSorted(s: State, t: State, n: nat, count: nat, validity: int, core: nat, src: Mac, dev: nat,
                           now: int, bounds: seq<int>)
    requires Coherent(s, n, count, validity) && Coherent(t, n, count, validity) && core < n == |bounds|
    requires Handled(s, t, n, count, validity, core, src, dev, now) && Sorted(s.cells, n, s.layout, bounds)
    requires RingFor(s, n, core, src) < n && bounds[RingFor(s, n, core, src)] <= now + validity
    ensures Sorted(t.cells, n, t.layout, bounds[RingFor(s, n, core, src) := now + validity])
  {
    var ring := RingFor(s, n, core, src);
    if Touched(Known(s), count, src, now) {
      RenewedStaysSorted(s, t, n, count, ring, t.index[src] + Shift(n), now + validity, bounds);
    } else {
      forall i: nat | i < n
        ensures RingSorted(t.cells, t.layout.lists[Ring(i)], bounds[ring := now + validity][i])
      {
        if i == ring {
          RingSortedRaise(s.cells, s.layout.lists[Ring(i)], bounds[i], now + validity);
        }
      }
    }
  }

  lemma MacOfCell(s: State, n: nat, count: nat, validity: int, r: nat, x: int)
    requires Coherent(s, n, count, validity) && r < n && x in s.layout.lists[Ring(r)]
    ensures Held(s.layout, x) && Shift(n) <= x < Shift(n) + |s.macs| && s.macs[x - Shift(n)] in s.index
  {
    assert ListOk(s.cells, n, count, s.layout, Ring(r));
    assert SlotOk(s, n, validity, x - Shift(n));
  }

  lemma NoRings(s: State, n: nat, count: nat, validity: int, r: nat)
    requires Coherent(s, n, count, validity) && s.index == map[] && r < n
    ensures s.layout.lists[Ring(r)] == []
  {
    if s.layout.lists[Ring(r)] != [] {
      MacOfCell(s, n, count, validity, r, s.layout.lists[Ring(r)][0]);
    }
  }

  /** A MAC that core `core` learns goes to the end of the core's ring. */
  lemma LearnedRing(s: State, t: State, n: nat, count: nat, validity: int, core: nat, src: Mac, dev: nat, now: int)
    requires Coherent(s, n, count, validity) && Coherent(t, n, count, validity) && core < n
    requires Handled(s, t, n, count, validity, core, src, dev, now) && src !in s.index && |s.index| < count
    ensures src in t.index && t.index == s.index[src := t.index[src]]
    ensures Known(t) == Known(s)[src := MacEntry(dev, now)]
    ensures t.layout.lists[Ring(core)] == s.layout.lists[Ring(core)] + [t.index[src] + Shift(n)]
  {
    KnownKeys(s, n, count, validity);
    KnownSize(s, n, count, validity);
    assert ListOk(s.cells, n, count, s.layout, Ring(core));
  }

  /** The table holds `a` and `b`, and ring 0 their indexes in this order. */
  ghost predicate BothOnRing(s: State, n: nat, a: Mac, b: Mac, dev: nat, first: int, second: int) {
    && a in s.index && b in s.index && s.index.Keys == {a, b} && Ring(0) in s.layout.lists
    && s.layout.lists[Ring(0)] == [s.index[a] + Shift(n), s.index[b] + Shift(n)]
    && Known(s) == map[a := MacEntry(dev, first), b := MacEntry(dev, second)]
  }

  /** Core 0 learns `a` and then `b`. */
  lemma TwoLearned(s0: State, s1: State, s2: State, n: nat, count: nat, validity: int, a: Mac, b: Mac, dev: nat,
                   first: int, second: int)
    requires Coherent(s0, n, count, validity) && Coherent(s1, n, count, validity) && Coherent(s2, n, count, validity)
    requires 0 < n && 1 < count && a != b && s0.index == map[]
    requires Handled(s0, s1, n, count, validity, 0, a, dev, first)
    requires Handled(s1, s2, n, count, validity, 0, b, dev, second)
    ensures BothOnRing(s2, n, a, b, dev, first, second)
  {
    NoRings(s0, n, count, validity, 0);
    LearnedRing(s0, s1, n, count, validity, 0, a, dev, first);
    KnownKeys(s0, n, count, validity);
    assert Known(s1) == map[a := MacEntry(dev, first)];
    assert s1.index.Keys == {a} && |s1.index| == |s1.index.Keys|;
    LearnedRing(s1, s2, n, count, validity, 0, b, dev, second);
  }

  /** Then core 1, whose clock is behind the one of core 0, refreshes `a`: a pass at a time at which only `a`
      has expired leaves it. */
  lemma LateStays(s2: State, s3: State, n: nat, count: nat, validity: int, a: Mac, b: Mac, dev: nat,
                  first: int, second: int, late: int, now: int)
    requires Coherent(s2, n, count, validity) && Coherent(s3, n, count, validity) && 1 < n
    requires a != b && BothOnRing(s2, n, a, b, dev, first, second)
    requires Handled(s2, s3, n, count, validity, 1, a, dev, late) && first + REFRESH_INTERVAL < late
    requires late + validity < now <= second + validity
    ensures a in Left(s3, n, now) && Left(s3, n, now)[a] == MacEntry(dev, late)
  {
    RefreshedRing(s2, s3, n, count, validity, a, b, dev, late);
    var i, j := s3.index[a], s3.index[b];
    assert KeyOk(s3, n, count, a) && KeyOk(s3, n, count, b) && SlotOk(s3, n, validity, j);
    assert Known(s3)[a] == MacEntry(dev, late) && Known(s3)[b] == MacEntry(dev, second);
    BehindFreshStays(s3.cells, s3.layout.lists[Ring(0)], now, 0, 1);
    assert ListOk(s3.cells, n, count, s3.layout, Ring(0));
    assert s3.layout.lists[Ring(0)][1] in s3.layout.lists[Ring(0)];
    assert Stays(s3, n, i + Shift(n), now);
  }

  lemma RefreshedRing(s: State, t: State, n: nat, count: nat, validity: int, a: Mac, b: Mac, dev: nat, now: int)
    requires Coherent(s, n, count, validity) && Coherent(t, n, count, validity) && 0 < n
    requires a != b && a in s.index && b in s.index && a in Known(s)
    requires s.layout.lists[Ring(0)] == [s.index[a] + Shift(n), s.index[b] + Shift(n)]
    requires Handled(s, t, n, count, validity, 1, a, dev, now) && Known(s)[a].time + REFRESH_INTERVAL < now
    ensures t.index == s.index && Known(t) == Known(s)[a := Known(s)[a].(time := now)]
    ensures t.layout.lists[Ring(0)] == [s.index[b] + Shift(n), s.index[a] + Shift(n)]
  {
    var x, y := s.index[a] + Shift(n), s.index[b] + Shift(n);
    assert KeyOk(s, n, count, a) && KeyOk(s, n, count, b);
    assert ListOk(s.cells, n, count, s.layout, Ring(0)) && x in s.layout.lists[Ring(0)];
    assert MovedToEnd([x, y], t.layout.lists[Ring(0)], x);
    assert [x, y][..0] + [x, y][0 + 1..] + [x] == [y, x];
  }

  /** A new bridge with two cores. */
  method TwoCores(hash: Mac -> nat, validity: int, blank: Mac) returns (b: Bridge)
    ensures b.Valid() && b.heap.n == 2 && b.heap.Count() == 4 && b.heap.validity == validity
    ensures fresh(b.heap) && fresh(b.heap.cells) && fresh(b.dynMap.entries) && fresh(b.macs) && fresh(b.vals)
    ensures b.View().index == map[]
  {
    b := new Bridge(hash, 4, validity, 2, blank);
    UsableIsAll(4, 2);
    KnownKeys(b.View(), 2, 4, validity);
  }

  method CalmPacket(b: Bridge, core: nat, src: Mac, dst: Mac, now: int)
    requires b.Valid() && core < b.heap.n
    modifies b.heap.cells, b.heap`layout, b.dynMap.entries, b.macs, b.vals
    ensures b.Valid()
    ensures Handled(old(b.View()), b.View(), b.heap.n, b.heap.Count(), b.heap.validity, core, src, 0, now)
  {
    var r := b.PktHandler(core, src, 0, dst, now, CALM);
  }

  /** Core 0 learns two MACs. */
  method LearnTwo(bridge: Bridge, a: Mac, b: Mac, first: int, second: int)
    requires bridge.Valid() && bridge.heap.n == 2 && bridge.heap.Count() == 4 && bridge.View().index == map[] && a != b
    modifies bridge.heap.cells, bridge.heap`layout, bridge.dynMap.entries, bridge.macs, bridge.vals
    ensures bridge.Valid()
    ensures BothOnRing(bridge.View(), 2, a, b, 0, first, second)
  {
    ghost var s0 := bridge.View();
    CalmPacket(bridge, 0, a, b, first);
    ghost var s1 := bridge.View();
    CalmPacket(bridge, 0, b, a, second);
    TwoLearned(s0, s1, bridge.View(), 2, 4, bridge.heap.validity, a, b, 0, first, second);
  }

  /** With clocks out of order a pass can leave an expired MAC behind: `late`, the time at which core 1 refreshes
      `a`, is before `second`, at which core 0 has learned `b`. */
  method LateClockKeepsExpired(hash: Mac -> nat, validity: int, a: Mac, b: Mac, first: int, second: int, late: int,
                               now: int)
    returns (bridge: Bridge)
    requires a != b && first + REFRESH_INTERVAL < late < second && late + validity < now <= second + validity
    ensures bridge.Valid() && a in bridge.Table() && bridge.Table()[a].time + bridge.heap.validity < now
  {
    bridge := TwoCores(hash, validity, a);
    LearnTwo(bridge, a, b, first, second);
    ghost var s2 := bridge.View();
    CalmPacket(bridge, 1, a, b, late);
    LateStays(s2, bridge.View(), 2, 4, validity, a, b, 0, first, second, late, now);
    LatePass(bridge, a, now);
  }

  method LatePass(bridge: Bridge, a: Mac, now: int)
    requires bridge.Valid() && a in Left(bridge.View(), bridge.heap.n, now)
    requires Left(bridge.View(), bridge.heap.n, now)[a].time + bridge.heap.validity < now
    modifies bridge.heap.cells, bridge.heap`layout, bridge.heap`currFreeList, bridge.dynMap.entries, bridge.macs
    modifies bridge.vals
    ensures bridge.Valid() && a in bridge.Table() && bridge.Table()[a].time + bridge.heap.validity < now
  {
    CalmPass(bridge, now);
  }

  method CalmPass(b: Bridge, now: int)
    requires b.Valid()
    modifies b.heap.cells, b.heap`layout, b.heap`currFreeList, b.dynMap.entries, b.macs, b.vals
    ensures b.Valid() && b.Table() == Left(old(b.View()), b.heap.n, now)
  {
    var unlocks;
    ghost var first;
    unlocks, first := b.ExpMac(now, []);
    assert unlocks[0];
  }
}
