/** What a call of `lb_rebalancing` achieves. */
module Improvement {
  import opened Arithmetic
  import opened Bst
  import opened Counting
  import opened Rebalancer
  import EmptyTree
  import G = GreedyEpoch

  /** The final mapping is the best of all that the call has gone through. */
  lemma FinalIsBest(t: Trail, first: seq<nat>, final: seq<nat>, saved: seq<seq<nat>>, w: seq<int>, n: nat, avg: int,
                    goal: int)
    requires Climbed(t, first, final, saved, w, n, avg, goal)
    ensures final in t.maps && |final| == |w|
    ensures forall k :: 0 <= k < |t.maps| ==> MaxLoad(final, w, n) <= MaxLoad(t.maps[k], w, n)
  {
    LastLowIsLeast(t.maps, w, n, |t.maps|);
  }

  /** The epoch after mapping `k`. */
  ghost predicate EpochFrom(t: Trail, w: seq<int>, n: nat, avg: int, k: nat) {
    && k + 1 < |t.maps| && k < |t.orders| && k < |t.misses| && |t.maps[k]| == |t.maps[k + 1]| == |w|
    && EpochOk(t.maps[k], t.maps[k + 1], w, n, avg, t.orders[k], t.misses[k])
  }

  /** A call gives up only when the loads are good enough, when it has saved eleven mappings, or when two epochs of
      greedy moves from the final mapping have both led to none that is better. */
  lemma WhyItStops(t: Trail, first: seq<nat>, final: seq<nat>, saved: seq<seq<nat>>, w: seq<int>, n: nat, avg: int,
                   goal: int)
    requires Climbed(t, first, final, saved, w, n, avg, goal)
    ensures |final| == |w| && MapsOk(t.maps, w)
    ensures var k := |t.maps| - 3;
            || MaxLoad(final, w, n) <= goal
            || |saved| > LB_MAX_NUM_ITER
            || (&& k >= 0 && t.maps[k] == final && EpochFrom(t, w, n, avg, k) && EpochFrom(t, w, n, avg, k + 1)
                && MaxLoad(t.maps[k + 1], w, n) >= MaxLoad(final, w, n)
                && MaxLoad(t.maps[k + 2], w, n) >= MaxLoad(final, w, n))
  {
    var last := |t.maps| - 1;
    FinalIsBest(t, first, final, saved, w, n, avg, goal);
    if MaxLoad(final, w, n) > goal && |saved| <= LB_MAX_NUM_ITER {
      assert !EndsAt(t.maps, w, n, goal, last - 1);
      assert IsLow(t.maps, w, n, last - 2);
      assert Lows(t.maps, w, n, last + 1) == Lows(t.maps, w, n, last);
      assert Lows(t.maps, w, n, last) == Lows(t.maps, w, n, last - 1);
      assert EpochAt(t, w, n, avg, last - 2) && EpochAt(t, w, n, avg, last - 1);
    }
  }

  /** The load of core `c` is at most the average, or that of a single partition. */
  ghost predicate Light(m: seq<nat>, w: seq<int>, c: nat, avg: int)
    requires |m| == |w|
  {
    LoadOf(m, w, c) <= avg || exists x :: 0 <= x < |m| && m[x] == c && w[x] == LoadOf(m, w, c)
  }

  /** After an epoch all cores that were not above the average have come up to it, or all that were above it have come
      down to it or are left with a partition that alone makes up their load. */
  lemma EpochBalances(m: seq<nat>, m': seq<nat>, w: seq<int>, n: nat, avg: int, order: seq<nat>)
    requires |m| == |m'| == |w| && n > 0 && MaxLoad(m, w, n) > avg && EpochOk(m, m', w, n, avg, order, false)
    ensures || (forall c: nat :: c < n && LoadOf(m, w, c) <= avg ==> LoadOf(m', w, c) >= avg)
            || (forall c: nat :: c < n && LoadOf(m, w, c) > avg ==> Light(m', w, c, avg))
  {
    var s, s' := ViewOf(m, w, order), ViewOf(m', w, order);
    var first := FirstAbove(m, w, n, avg, order);
    G.EpochSettles(s, avg, first);
    if forall q :: 0 <= q < first ==> s'.loads[q] >= avg {
      forall c: nat | c < n && LoadOf(m, w, c) <= avg ensures LoadOf(m', w, c) >= avg {
        var q := CoreInOrder(m, w, n, order, c);
        assert s.loads[q] == LoadOf(m, w, c) && s'.loads[q] == LoadOf(m', w, c);
        assert s.loads[first] <= s.loads[q] || q < first;
      }
    } else {
      forall c: nat | c < n && LoadOf(m, w, c) > avg ensures Light(m', w, c, avg) {
        var q := CoreInOrder(m, w, n, order, c);
        assert s.loads[q] == LoadOf(m, w, c) && G.Relieved(s', avg, q);
        PartsAre(m', w, c, |m'|, s'.loads[q]);
      }
    }
  }

  lemma FirstAbove(m: seq<nat>, w: seq<int>, n: nat, avg: int, order: seq<nat>) returns (first: nat)
    requires |m| == |w| && n > 0 && MaxLoad(m, w, n) > avg && AscendingOrder(m, w, n, order)
    ensures G.IsFirst(ViewOf(m, w, order).loads, avg, first)
  {
    var s := ViewOf(m, w, order);
    if forall q :: 0 <= q < n ==> s.loads[q] <= avg {
      forall c: nat | c < n ensures LoadOf(m, w, c) <= avg {
        var q := CoreInOrder(m, w, n, order, c);
        assert s.loads[q] == LoadOf(m, w, c);
      }
      MaxLoadIs(m, w, n, avg);
      assert false;
    }
    first := 0;
    while s.loads[first] <= avg
      invariant first < n && forall q :: 0 <= q < first ==> s.loads[q] <= avg
      decreases n - first
    {
      first := first + 1;
    }
  }

  // ---- Four partitions on one of two cores

  function FourOnOne(): (s: G.Cores)
    ensures G.Shaped(s) && |s.loads| == 2
  {
    G.Cores([0, 40], [multiset{}, multiset{10, 10, 10, 10}])
  }

  function ThreeAndOne(): (s: G.Cores)
    ensures G.Shaped(s) && |s.loads| == 2
  {
    G.Cores([10, 30], [multiset{10}, multiset{10, 10, 10}])
  }

  function TwoAndTwo(): (s: G.Cores)
    ensures G.Shaped(s) && |s.loads| == 2
  {
    G.Cores([20, 20], [multiset{10, 10}, multiset{10, 10}])
  }

  lemma FirstMove()
    ensures G.Next(FourOnOne(), 20, 1, 0) == G.GoesOn(ThreeAndOne(), 1, 0)
  {
    G.PickIs(multiset{10, 10, 10, 10}, 20, 10);
    assert multiset{10, 10, 10, 10} - multiset{10} == multiset{10, 10, 10};
    assert multiset{} + multiset{10} == multiset{10};
    assert G.Moved(FourOnOne(), 1, 0, 10) == ThreeAndOne();
  }

  lemma SecondMove()
    ensures G.Next(ThreeAndOne(), 20, 1, 0) == G.GoesOn(TwoAndTwo(), 1, 0)
  {
    G.PickIs(multiset{10, 10, 10}, 10, 10);
    assert multiset{10, 10, 10} - multiset{10} == multiset{10, 10};
    assert multiset{10} + multiset{10} == multiset{10, 10};
    assert G.Moved(ThreeAndOne(), 1, 0, 10) == TwoAndTwo();
  }

  lemma EvenEpoch()
    ensures G.Epoch(FourOnOne(), 20) == G.GoesOn(TwoAndTwo(), 0, 1)
  {
    FirstMove();
    SecondMove();
    G.EpochIs(FourOnOne(), 20, 1);
    assert G.Course(TwoAndTwo(), 20, 1, 1, 0) == G.Course(TwoAndTwo(), 20, 1, 0, 1);
    assert G.Course(ThreeAndOne(), 20, 1, 1, 0) == G.Course(TwoAndTwo(), 20, 1, 1, 0);
  }

  lemma FourOnOneLoads(m: seq<nat>, w: seq<int>, c: nat)
    requires m == [0, 0, 0, 0] && w == [10, 10, 10, 10]
    ensures LoadOf(m, w, c) == if c == 0 then 40 else 0
    ensures PartsUpTo(m, w, c, 4) == if c == 0 then multiset{10, 10, 10, 10} else multiset{}
    ensures Total(w, 4) == 40
  {
    var one := if c == 0 then 10 else 0;
    assert LoadUpTo(m, w, c, 1) == one && LoadUpTo(m, w, c, 2) == 2 * one && LoadUpTo(m, w, c, 3) == 3 * one;
    assert PartsUpTo(m, w, c, 1) == if c == 0 then multiset{10} else multiset{};
    assert PartsUpTo(m, w, c, 2) == if c == 0 then multiset{10, 10} else multiset{};
    assert PartsUpTo(m, w, c, 3) == if c == 0 then multiset{10, 10, 10} else multiset{};
    assert Total(w, 1) == 10 && Total(w, 2) == 20 && Total(w, 3) == 30;
  }

  lemma FourOnOneView(m: seq<nat>, w: seq<int>, order: seq<nat>)
    requires m == [0, 0, 0, 0] && w == [10, 10, 10, 10] && AscendingOrder(m, w, 2, order)
    ensures ViewOf(m, w, order) == FourOnOne()
  {
    FourOnOneOrder(m, w, order);
    FourOnOneLoads(m, w, 0);
    FourOnOneLoads(m, w, 1);
    var s := ViewOf(m, w, order);
    assert s.loads == FourOnOne().loads;
    assert s.parts == FourOnOne().parts;
  }

  lemma FourOnOneOrder(m: seq<nat>, w: seq<int>, order: seq<nat>)
    requires m == [0, 0, 0, 0] && w == [10, 10, 10, 10] && AscendingOrder(m, w, 2, order)
    ensures order == [1, 0]
  {
    FourOnOneLoads(m, w, order[0]);
    FourOnOneLoads(m, w, order[1]);
  }

  lemma FourOnOneUnbalanced(m: seq<nat>, w: seq<int>)
    requires m == [0, 0, 0, 0] && w == [10, 10, 10, 10]
    ensures Total(w, |w|) == 40 && MaxLoad(m, w, 2) == 40 && Unbalanced(m, w, 2)
  {
    FourOnOneLoads(m, w, 0);
    FourOnOneLoads(m, w, 1);
    assert 20 / (4 / 2) == 10 && LoadOf(m, w, 0) > 30;
  }

  lemma FourOnOneImproves(m: seq<nat>, w: seq<int>)
    requires m == [0, 0, 0, 0] && w == [10, 10, 10, 10]
    ensures GreedyImproves(m, w, 2, 20)
  {
    FourOnOneUnbalanced(m, w);
    EvenEpoch();
    forall order | AscendingOrder(m, w, 2, order)
      ensures G.Epoch(ViewOf(m, w, order), 20) == G.GoesOn(TwoAndTwo(), 0, 1)
    {
      FourOnOneView(m, w, order);
    }
  }

  method Relieve(m: seq<nat>, w: seq<int>, avg: int) returns (improved: bool, reta: seq<nat>)
    requires 2 <= |m| == |w| && OnCores(m, 2) && NonNegative(w) && Total(w, |w|) < INT32_MAX
    requires avg == Total(w, |w|) / 2 && Unbalanced(m, w, 2) && GreedyImproves(m, w, 2, avg)
    ensures improved && |reta| == |m| && MaxLoad(reta, w, 2) < MaxLoad(m, w, 2)
  {
    var missed;
    improved, missed, reta := EmptyTree.Rebalance(w, m, 2);
  }

  /** Of two cores, one with four partitions of load 10 and one without any, the first is relieved. */
  method FourOnOneOfTwo() returns (improved: bool, reta: seq<nat>)
    ensures improved && |reta| == 4 && MaxLoad(reta, [10, 10, 10, 10], 2) < 40
  {
    var m: seq<nat>, w := [0, 0, 0, 0], [10, 10, 10, 10];
    FourOnOneUnbalanced(m, w);
    FourOnOneImproves(m, w);
    improved, reta := Relieve(m, w, 20);
  }
}
