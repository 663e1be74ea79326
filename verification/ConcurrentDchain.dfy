/** The index allocator of the packet set manager (src/concurrent-double-chain.c and
    src/concurrent-double-chain-impl.c): the same lists as in the allocator with expiration, changed in
    place under locks instead of by transactions. */
module ConcurrentDchain {
  import opened CellLists
  import opened DchainExp

  /** The times of allocated cells other than `x` are as before, and `x` has the given time. */
  ghost predicate HeldTimes(c: seq<Cell>, d: seq<Cell>, l: Layout, x: int, time: int) {
    && |d| == |c| && 0 <= x < |d| && d[x].time == time
    && forall y :: 0 <= y < |c| && Held(l, y) && y != x ==> d[y].time == c[y].time
  }

  /** The lists after the first cell of list `a` has been appended to a core's ring. */
  ghost function Installed(l: Layout, a: List, core: nat): Layout
    requires a in l.lists && Ring(core) in l.lists && l.lists[a] != []
  {
    var t := Taken(l, a, 0);
    Given(t, Ring(core), t.lists[Ring(core)] + [l.lists[a][0]], l.lists[a][0])
  }

  /** The lists when an index is taken from the global list, which is refilled when it is empty. */
  ghost function GlobalSource(l: Layout, n: nat): (r: Layout)
    requires n > 0 && HasLists(n, l)
    ensures HasLists(n, r)
  {
    if l.lists[Global] == [] then Refilled(l, n, n) else l
  }

  /** The lists after cell number `k` of a core's ring has become the first of its free list. */
  ghost function Freed(l: Layout, core: nat, k: nat): Layout
    requires Ring(core) in l.lists && Free(core) in l.lists && k < |l.lists[Ring(core)]|
  {
    Released(l, Ring(core), k, core)
  }

  /** A cell that claims to be on a core's ring is. */
  lemma OnRing(c: seq<Cell>, n: nat, count: nat, l: Layout, core: nat, x: int) returns (k: nat)
    requires ListsOk(c, n, count, l) && core < n && Shift(n) <= x < |c|
    requires c[x].listInd == AllocHead(core)
    ensures IsIndexCell(n, count, x)
    ensures k < |l.lists[Ring(core)]| && l.lists[Ring(core)][k] == x && x in l.home && l.home[x] == Ring(core)
  {
    FreeByListInd(c, n, count, l, x);
    k :| 0 <= k < |l.lists[Ring(core)]| && l.lists[Ring(core)][k] == x;
  }

  /** An index on the ring has equal links exactly when it is alone there. */
  lemma AloneOnRing(c: seq<Cell>, n: nat, count: nat, l: Layout, core: nat, k: nat)
    requires ListsOk(c, n, count, l) && core < n && k < |l.lists[Ring(core)]|
    ensures var s := l.lists[Ring(core)];
            && 0 <= s[k] < |c|
            && (c[s[k]].next == c[s[k]].prev <==> |s| == 1)
            && (|s| == 1 ==> c[s[k]].next == AllocHead(core) && Lifted(l, Ring(core), 0) == l)
  {
    var s := l.lists[Ring(core)];
    LiftReads(c, n, count, l, Ring(core), k);
    assert ListOk(c, n, count, l, Ring(core));
    assert forall i :: 0 <= i < |s| ==> s[i] in s;
    if |s| == 1 {
      LiftLast(l, Ring(core));
    }
  }

  ghost predicate TimesKept(c: seq<Cell>, d: seq<Cell>, l: Layout) {
    |d| == |c| && forall y {:trigger Held(l, y)} :: 0 <= y < |c| && Held(l, y) ==> d[y].time == c[y].time
  }

  lemma TimesKeptTwice(c: seq<Cell>, d: seq<Cell>, e: seq<Cell>, l: Layout, m: Layout)
    requires TimesKept(c, d, l) && TimesKept(d, e, m) && SameHeld(l, m)
    ensures TimesKept(c, e, l)
  {
    forall y | 0 <= y < |c| && Held(l, y) ensures e[y].time == c[y].time {
      assert Held(m, y);
    }
  }

  class ConcurrentDoubleChain {
    const cells: array<Cell>
    const n: nat
    const size: nat
    ghost var layout: Layout

    ghost function Count(): nat
      requires n > 0
    {
      Usable(n, size / n)
    }

    ghost predicate Valid()
      reads this, cells
    {
      && 0 < n <= size && cells.Length == Shift(n) + size && Count() <= size
      && ListsOk(cells[..], n, Count(), layout)
    }

    /** The allocated indexes of a core, oldest first. */
    ghost function RingOf(core: nat): seq<int>
      reads this, cells
      requires Valid() && core < n
    {
      layout.lists[Ring(core)]
    }

    /** `concurrent_dchain_allocate`, when memory suffices. */
    constructor (size: nat, n: nat)
      requires 0 < n <= size
      ensures Valid() && fresh(cells) && this.size == size && this.n == n
      ensures layout == InitialLayout(n, size / n)
    {
      this.n := n;
      this.size := size;
      this.layout := InitialLayout(n, size / n);
      this.cells := new Cell[Shift(n) + size](_ => Cell(0, 0, 0, 0));
      new;
      UsableIsAll(size, n);
      InitLists(cells, size, n);
    }

    /** `concurrent_dchain_impl_has_free_indexes`. */
    method HasFreeIndexes(core: nat) returns (b: bool)
      requires Valid() && core < n
      ensures b <==> layout.lists[Free(core)] != []
    {
      assert ListOk(cells[..], n, Count(), layout, Free(core));
      EmptyFreeCircle(cells[..], FreeHead(n, core), layout.lists[Free(core)], false);
      b := cells[FreeHead(n, core)].next != FreeHead(n, core);
    }

    /** Move the first cell of the free list with head `h` to the end of the core's ring. */
    method InstallFirst(ghost a: List, h: nat, core: nat, time: int) returns (index: nat)
      requires Valid() && core < n && a in layout.lists && !a.Ring? && layout.lists[a] != [] && h == Head(n, a)
      modifies cells, this`layout
      ensures Valid() && layout == old(Installed(layout, a, core))
      ensures index + Shift(n) == old(layout.lists[a][0]) && index < Count()
      ensures OnlyTime(old(cells[..]), cells[..], index + Shift(n), time)
    {
      ghost var c, l := cells[..], layout;
      InstallOk(c, n, Count(), l, a, Ring(core), time);
      assert ListOk(c, n, Count(), l, a) && l.lists[a][0] in l.lists[a];
      AppendTimes(PopFree(c, h), AllocHead(core), l.lists[a][0], time);
      var al := AllocHead(core);
      var x := cells[h].next;
      cells[h] := cells[h].(next := cells[x].next, prev := cells[x].next);
      cells[x] := Cell(cells[al].prev, al, al, time);
      var last := cells[al].prev;
      cells[last] := cells[last].(next := x);
      cells[al] := cells[al].(prev := x);
      layout := Installed(l, a, core);
      assert cells[..] == Append(PopFree(c, h), al, x, time);
      index := x - Shift(n);
    }

    /** `concurrent_dchain_impl_allocate_new_index`: from the core's own free list. */
    method AllocateLocal(core: nat, time: int) returns (ok: bool, index: nat)
      requires Valid() && core < n
      modifies cells, this`layout
      ensures Valid() && (ok <==> old(layout.lists[Free(core)]) != [])
      ensures !ok ==> cells[..] == old(cells[..]) && layout == old(layout)
      ensures ok ==>
                && layout == old(Installed(layout, Free(core), core))
                && index + Shift(n) == old(layout.lists[Free(core)][0]) && index < Count()
                && OnlyTime(old(cells[..]), cells[..], index + Shift(n), time)
    {
      ok := HasFreeIndexes(core);
      index := 0;
      if ok {
        index := InstallFirst(Free(core), FreeHead(n, core), core, time);
      }
    }

    /** `concurrent_dchain_impl_fill_global_free_list`. */
    method FillGlobal(core: nat)
      requires Valid() && core < n
      modifies cells, this`layout
      ensures Valid() && layout == Migrated(old(layout), core)
      ensures TimesKept(old(cells[..]), cells[..], old(layout))
    {
      var h, g := FreeHead(n, core), GlobalHead(n);
      var some := HasFreeIndexes(core);
      if some {
        ghost var c, l := cells[..], layout;
        MoveFirstOk(c, n, Count(), l, Free(core), Global, MAX_TIME);
        assert ListOk(c, n, Count(), l, Free(core)) && l.lists[Free(core)][0] in l.lists[Free(core)];
        var x := cells[h].next;
        cells[h] := cells[h].(next := cells[x].next, prev := cells[x].next);
        cells[x] := Cell(cells[g].next, cells[g].next, -1, MAX_TIME);
        cells[g] := cells[g].(next := x, prev := x);
        layout := Migrated(l, core);
        assert cells[..] == PushFree(PopFree(c, h), g, x, MAX_TIME);
      }
    }

    /** The refill of the global list, with all locks held. */
    method Refill()
      requires Valid()
      modifies cells, this`layout
      ensures Valid() && layout == Refilled(old(layout), n, n) && SameHeld(old(layout), layout)
      ensures TimesKept(old(cells[..]), cells[..], old(layout))
    {
      ghost var l := layout;
      FrontsAreFree(cells[..], n, Count(), l);
      for i := 0 to n
        invariant Valid() && layout == Refilled(l, n, i) && SameHeld(l, layout)
        invariant TimesKept(old(cells[..]), cells[..], l)
      {
        FillOne(l, old(cells[..]), i);
      }
    }

    /** One iteration of the refill, which has started from the lists `l` and the cells `start`. */
    method FillOne(ghost l: Layout, ghost start: seq<Cell>, i: nat)
      requires Valid() && i < n && HasLists(n, l) && layout == Refilled(l, n, i) && SameHeld(l, layout)
      requires forall i: nat {:trigger FrontIsFree(l, n, i)} :: i < n ==> FrontIsFree(l, n, i)
      requires TimesKept(start, cells[..], l)
      modifies cells, this`layout
      ensures Valid() && layout == Refilled(l, n, i + 1) && SameHeld(l, layout) && TimesKept(start, cells[..], l)
    {
      ghost var c, m := cells[..], layout;
      FillGlobal(i);
      TimesKeptTwice(start, c, cells[..], l, m);
      RefillHoldsSame(l, n, i + 1);
    }

    /** `concurrent_dchain_impl_allocate_new_index_global`: from the global list, refilled if need be. */
    method AllocateGlobal(core: nat, time: int) returns (ok: bool, index: nat)
      requires Valid() && core < n
      modifies cells, this`layout
      ensures Valid()
      ensures var p := old(GlobalSource(layout, n));
              && (ok <==> p.lists[Global] != [])
              && (ok ==> layout == Installed(p, Global, core) && index + Shift(n) == p.lists[Global][0])
      ensures ok ==> index < Count() && HeldTimes(old(cells[..]), cells[..], old(layout), index + Shift(n), time)
      ensures !ok ==> AllHeld(layout, n, Count()) && layout == old(layout)
    {
      ghost var l := layout;
      var g := GlobalHead(n);
      index := 0;
      assert ListOk(cells[..], n, Count(), layout, Global);
      EmptyFreeCircle(cells[..], g, layout.lists[Global], false);
      if cells[g].next == g {
        forall i | 0 <= i < Count() && Refilled(l, n, n).lists[Global] == [] ensures IndexHeld(l, n, i) {
          RefilledNothing(l, n, n);
          EmptySourceMeansFull(cells[..], n, Count(), l, core, i + Shift(n));
        }
        Refill();
        assert ListOk(cells[..], n, Count(), layout, Global);
        EmptyFreeCircle(cells[..], g, layout.lists[Global], false);
      }
      ok := cells[g].next != g;
      if ok {
        index := InstallFirst(Global, g, core, time);
      } else {
        RefilledNothing(l, n, n);
      }
    }

    /** `concurrent_dchain_allocate_new_index`: locally, else globally.  It fails only when every index
        is allocated. */
    method AllocateNewIndex(core: nat, time: int) returns (ok: bool, index: nat, ghost local: bool)
      requires Valid() && core < n
      modifies cells, this`layout
      ensures Valid() && (local <==> old(layout.lists[Free(core)]) != [])
      ensures !ok ==> AllHeld(layout, n, Count()) && layout == old(layout)
      ensures ok ==>
                && old(Source(layout, n, core)).0.lists[old(Source(layout, n, core)).1] != []
                && layout == old(Allocated(layout, n, core)) && index < Count()
                && NowHeld(old(layout), layout, index + Shift(n))
                && HeldTimes(old(cells[..]), cells[..], old(layout), index + Shift(n), time)
      ensures local ==> ok && OnlyTime(old(cells[..]), cells[..], index + Shift(n), time)
                        && layout == old(Installed(layout, Free(core), core))
                        && index + Shift(n) == old(layout.lists[Free(core)][0])
    {
      ghost var c, l := cells[..], layout;
      ok, index := AllocateLocal(core, time);
      local := ok;
      if !ok {
        ok, index := AllocateGlobal(core, time);
      }
      if ok {
        AllocationHolds(c, n, Count(), l, core);
      }
    }

    /** `concurrent_dchain_impl_free_index`. */
    method FreeIndex(index: nat, core: nat) returns (ok: bool, ghost k: nat)
      requires Valid() && core < n && index < size
      modifies cells, this`layout
      ensures Valid() && (ok <==> index + Shift(n) in old(RingOf(core)))
      ensures !ok ==> cells[..] == old(cells[..]) && layout == old(layout)
      ensures ok ==>
                && k < |old(RingOf(core))| && old(RingOf(core))[k] == index + Shift(n)
                && layout == Freed(old(layout), core, k)
                && OnlyTime(old(cells[..]), cells[..], index + Shift(n), old(cells[index + Shift(n)].time))
    {
      var x := index + Shift(n);
      ghost var c, l := cells[..], layout;
      k := 0;
      if cells[x].listInd != AllocHead(core) {
        NotOnRing(c, n, Count(), l, core, x);
        return false, k;
      }
      k := OnRing(c, n, Count(), l, core, x);
      ReleaseOk(c, n, Count(), l, Ring(core), k, core);
      AloneOnRing(c, n, Count(), l, core, k);
      var prev, next := cells[x].prev, cells[x].next;
      if next == prev && prev != AllocHead(core) {
        return false, k;
      }
      var f := FreeHead(n, core);
      cells[prev] := cells[prev].(next := next);
      cells[next] := cells[next].(prev := prev);
      cells[x] := cells[x].(next := cells[f].next, prev := cells[f].next, listInd := -1);
      cells[f] := cells[f].(next := x, prev := x);
      layout := Freed(l, core, k);
      assert cells[..] == PushFree(Unlink(c, x), f, x, c[x].time);
      ok := true;
    }

    /** `concurrent_dchain_impl_get_oldest_index`. */
    method GetOldestIndex(core: nat) returns (ok: bool, index: nat)
      requires Valid() && core < n
      ensures ok <==> RingOf(core) != []
      ensures ok ==> index + Shift(n) == RingOf(core)[0] && index < Count()
    {
      var al := AllocHead(core);
      assert ListOk(cells[..], n, Count(), layout, Ring(core));
      EmptyFreeCircle(cells[..], al, RingOf(core), true);
      if cells[al].next == cells[al].prev && cells[al].next == al {
        return false, 0;
      }
      assert Link(cells[..], al, RingOf(core), true, 0) && RingOf(core)[0] in RingOf(core);
      return true, cells[al].next - Shift(n);
    }

    /** `concurrent_dchain_has_expired_index`. */
    method HasExpiredIndex(time: int, core: nat) returns (expired: bool, index: nat)
      requires Valid() && core < n
      ensures expired ==>
                && RingOf(core) != [] && index + Shift(n) == RingOf(core)[0] && index < Count()
                && cells[index + Shift(n)].time < time
      ensures !expired ==>
                RingOf(core) == [] || (0 <= RingOf(core)[0] < cells.Length && cells[RingOf(core)[0]].time >= time)
    {
      var ok;
      ok, index := GetOldestIndex(core);
      expired := ok && cells[index + Shift(n)].time < time;
    }

    /** `concurrent_dchain_impl_rejuvenate_index`.  When the index is the only one on its ring, the time
        is not written, although the call reports success. */
    method RejuvenateIndex(index: nat, core: nat, time: int) returns (ok: bool)
      requires Valid() && core < n && index < size
      modifies cells, this`layout
      ensures Valid() && (ok <==> index + Shift(n) in old(RingOf(core)))
      ensures !ok ==> cells[..] == old(cells[..]) && layout == old(layout)
      ensures ok ==> IsLifted(old(layout), layout, index + Shift(n)) && SameHeld(old(layout), layout)
                     && old(layout.home[index + Shift(n)]) == Ring(core)
      ensures ok && |old(RingOf(core))| == 1 ==> cells[..] == old(cells[..]) && layout == old(layout)
      ensures ok && |old(RingOf(core))| > 1 ==> OnlyTime(old(cells[..]), cells[..], index + Shift(n), time)
    {
      var x, al := index + Shift(n), AllocHead(core);
      ghost var c, l := cells[..], layout;
      if cells[x].listInd != al {
        NotOnRing(c, n, Count(), l, core, x);
        return false;
      }
      ghost var k := OnRing(c, n, Count(), l, core, x);
      LiftReads(c, n, Count(), l, Ring(core), k);
      AloneOnRing(c, n, Count(), l, core, k);
      LiftHolds(l, Ring(core), k);
      var next, prev := cells[x].next, cells[x].prev;
      if next == prev {
        return next == al;
      }
      LiftOk(c, n, Count(), l, Ring(core), k, time);
      cells[prev] := cells[prev].(next := next);
      cells[next] := cells[next].(prev := prev);
      var last := cells[al].prev;
      cells[x] := cells[x].(next := al, prev := last, time := time);
      cells[last] := cells[last].(next := x);
      cells[al] := cells[al].(prev := x);
      layout := Lifted(l, Ring(core), k);
      assert cells[..] == Append(Unlink(c, x), al, x, time);
      ok := true;
    }

    /** `concurrent_dchain_impl_is_index_allocated`. */
    method IsIndexAllocated(index: nat, core: nat) returns (b: bool)
      requires Valid() && core < n && index < size
      ensures b <==> index + Shift(n) in RingOf(core)
    {
      var x, al := index + Shift(n), AllocHead(core);
      if cells[x].listInd != al {
        NotOnRing(cells[..], n, Count(), layout, core, x);
        return false;
      }
      ghost var k := OnRing(cells[..], n, Count(), layout, core, x);
      AloneOnRing(cells[..], n, Count(), layout, core, k);
      b := cells[x].next != cells[x].prev || cells[x].next == al;
    }
  }

  lemma NotOnRing(c: seq<Cell>, n: nat, count: nat, l: Layout, core: nat, x: int)
    requires ListsOk(c, n, count, l) && core < n && 0 <= x < |c|
    requires c[x].listInd != AllocHead(core)
    ensures x !in l.lists[Ring(core)]
  {
    assert ListOk(c, n, count, l, Ring(core));
  }
}
