/** The packet set manager (src/pkt-set-manager.c): a chained map from packet set ids to indexes whose
    links live beside the cells of the index allocator, and a vector of states.  Each core works on its
    own partition.  Packet sets that share a state with a related one are not modelled. */
module PktSetManager {
  import opened Arithmetic
  import opened CellLists
  import opened DchainExp
  import CD = ConcurrentDchain
  import CM = ConcurrentMap
  import opened PowersOfTwo

  /** The per-core log of `add_pkt_set`. */
  datatype LogEntry<S> = LogEntry(addPktSet: bool, state: S)

  /** Index `x` is in the map exactly when it is allocated, in the partition on whose ring it is. */
  ghost predicate Agree(l: Layout, owner: map<int, nat>, n: nat, x: int) {
    && (x in owner <==> Held(l, x + Shift(n)))
    && (x in owner ==> l.home[x + Shift(n)] == Ring(owner[x]))
  }

  ghost predicate AllAgree(l: Layout, owner: map<int, nat>, n: nat) {
    forall x {:trigger Agree(l, owner, n, x)} :: Agree(l, owner, n, x)
  }

  lemma InstallAgrees(c: seq<Cell>, n: nat, count: nat, l: Layout, owner: map<int, nat>, core: nat, x: int)
    requires ListsOk(c, n, count, l) && core < n && l.lists[Free(core)] != [] && AllAgree(l, owner, n)
    requires x + Shift(n) == l.lists[Free(core)][0]
    ensures x !in owner
    ensures AllAgree(CD.Installed(l, Free(core), core), owner[x := core], n)
  {
    assert ListOk(c, n, count, l, Free(core)) && l.lists[Free(core)][0] in l.lists[Free(core)];
    assert Agree(l, owner, n, x);
    var m := CD.Installed(l, Free(core), core);
    var owner' := owner[x := core];
    forall y ensures Agree(m, owner', n, y) {
      assert Agree(l, owner, n, y);
    }
  }

  lemma FreedAgrees(c: seq<Cell>, n: nat, count: nat, l: Layout, owner: map<int, nat>, core: nat, k: nat, x: int)
    requires ListsOk(c, n, count, l) && core < n && k < |l.lists[Ring(core)]| && AllAgree(l, owner, n)
    requires x + Shift(n) == l.lists[Ring(core)][k]
    ensures x in owner && owner[x] == core
    ensures AllAgree(CD.Freed(l, core, k), owner - {x}, n)
  {
    assert ListOk(c, n, count, l, Ring(core)) && l.lists[Ring(core)][k] in l.lists[Ring(core)];
    assert Agree(l, owner, n, x);
    var m := CD.Freed(l, core, k);
    forall y ensures Agree(m, owner - {x}, n, y) {
      assert Agree(l, owner, n, y);
    }
  }

  lemma LiftAgrees(l: Layout, m: Layout, owner: map<int, nat>, n: nat, x: int)
    requires IsLifted(l, m, x) && AllAgree(l, owner, n)
    ensures AllAgree(m, owner, n)
  {
    forall y ensures Agree(m, owner, n, y) {
      assert Agree(l, owner, n, y);
    }
  }

  lemma FreedKeepsSorted(c: seq<Cell>, d: seq<Cell>, n: nat, count: nat, l: Layout, core: nat, k: nat,
                         clocks: seq<int>)
    requires ListsOk(c, n, count, l) && core < n == |clocks| && k < |l.lists[Ring(core)]| && Sorted(c, n, l, clocks)
    requires var x := l.lists[Ring(core)][k]; 0 <= x < |c| && OnlyTime(c, d, x, c[x].time)
    ensures HasLists(n, CD.Freed(l, core, k)) && Sorted(d, n, CD.Freed(l, core, k), clocks)
  {
    var x, m := l.lists[Ring(core)][k], CD.Freed(l, core, k);
    assert ListOk(c, n, count, l, Ring(core)) && x in l.lists[Ring(core)];
    forall i: nat | i < n ensures RingSorted(d, m.lists[Ring(i)], clocks[i]) {
      assert ListOk(c, n, count, l, Ring(i));
      var s := l.lists[Ring(i)];
      RingStaysSorted(c, d, s, if i == core then k else |s|, x, clocks[i]);
    }
  }

  lemma InstallIsLatest(c: seq<Cell>, d: seq<Cell>, n: nat, count: nat, l: Layout, core: nat, clocks: seq<int>,
                        time: int)
    requires ListsOk(c, n, count, l) && core < n == |clocks| && l.lists[Free(core)] != []
    requires Sorted(c, n, l, clocks) && clocks[core] <= time && OnlyTime(c, d, l.lists[Free(core)][0], time)
    ensures HasLists(n, CD.Installed(l, Free(core), core))
    ensures Sorted(d, n, CD.Installed(l, Free(core), core), clocks[core := time])
  {
    var x := l.lists[Free(core)][0];
    assert ListOk(c, n, count, l, Free(core)) && x in l.lists[Free(core)];
    NewIsLatest(c, d, n, count, l, CD.Installed(l, Free(core), core), core, x, clocks, time);
  }

  lemma SortedRaise(c: seq<Cell>, n: nat, l: Layout, clocks: seq<int>, core: nat, time: int)
    requires HasLists(n, l) && core < n == |clocks| && Sorted(c, n, l, clocks) && clocks[core] <= time
    ensures Sorted(c, n, l, clocks[core := time])
  {
    RingSortedRaise(c, l.lists[Ring(core)], clocks[core], time);
    forall i: nat | i < n ensures RingSorted(c, l.lists[Ring(i)], clocks[core := time][i]) {
    }
  }

  // ---- The packet sets of a partition

  /** A registered packet set: its state and the time of its last recorded use.  A use is recorded unless
      the packet set is the only one of its partition. */
  datatype Entry<S> = Entry(state: S, time: int)

  ghost function Lookup<I, S>(index: map<I, int>, states: seq<S>, c: seq<Cell>, n: nat): map<I, Entry<S>> {
    map id | id in index && 0 <= index[id] < |states| && index[id] + Shift(n) < |c| ::
      Entry(states[index[id]], c[index[id] + Shift(n)].time)
  }

  /** No packet set but `id` has the index `x`. */
  ghost predicate OnlyUser<I>(index: map<I, int>, x: int, id: I) {
    forall k :: k in index && k != id ==> index[k] != x
  }

  ghost predicate Unused<I>(index: map<I, int>, x: int) {
    forall k :: k in index ==> index[k] != x
  }

  lemma LookupOther<I, S>(index: map<I, int>, states: seq<S>, states': seq<S>, c: seq<Cell>, d: seq<Cell>, n: nat,
                          x: nat, time: int)
    requires Unused(index, x) && x < |states| && OnlyTime(c, d, x + Shift(n), time)
    requires |states'| == |states| && forall y :: 0 <= y < |states| && y != x ==> states'[y] == states[y]
    ensures Lookup(index, states', d, n) == Lookup(index, states, c, n)
  {
  }

  lemma LookupPut<I, S>(index: map<I, int>, states: seq<S>, c: seq<Cell>, d: seq<Cell>, n: nat, x: nat, id: I, s: S,
                        time: int)
    requires Unused(index, x) && x < |states| && OnlyTime(c, d, x + Shift(n), time) && id !in index
    ensures Lookup(index[id := x], states[x := s], d, n) == Lookup(index, states, c, n)[id := Entry(s, time)]
  {
  }

  lemma LookupTouch<I, S>(index: map<I, int>, states: seq<S>, c: seq<Cell>, d: seq<Cell>, n: nat, x: nat, id: I,
                          time: int)
    requires id in index && index[id] == x && OnlyUser(index, x, id)
    requires x < |states| && OnlyTime(c, d, x + Shift(n), time)
    ensures id in Lookup(index, states, c, n)
    ensures Lookup(index, states, d, n) ==
            Lookup(index, states, c, n)[id := Lookup(index, states, c, n)[id].(time := time)]
  {
  }

  lemma LookupErase<I, S>(index: map<I, int>, states: seq<S>, c: seq<Cell>, d: seq<Cell>, n: nat, x: nat, id: I,
                          time: int)
    requires id in index && index[id] == x && OnlyUser(index, x, id)
    requires x < |states| && OnlyTime(c, d, x + Shift(n), time)
    ensures Lookup(index - {id}, states, d, n) == Lookup(index, states, c, n) - {id}
    ensures id in Lookup(index, states, c, n) && Lookup(index, states, c, n)[id].time == c[x + Shift(n)].time
  {
  }

  // ---- Allocator, map and states as one value

  datatype State<I, S> = State(cells: seq<Cell>, layout: Layout, table: CM.Table<I>, chains: CM.Chains, states: seq<S>)

  /** The registered packet sets of partition `p`. */
  ghost function Sets<I, S>(s: State<I, S>, n: nat, p: nat): map<I, Entry<S>>
    requires CM.UniqueKeys(s.table, s.chains)
  {
    Lookup(CM.Contents(s.table, s.chains, p), s.states, s.cells, n)
  }

  /** The map holds exactly the ids of the allocated indexes, partition by partition; each partition's ring is
      sorted by time, up to the latest time of the core that works on it. */
  ghost predicate Coherent<I, S>(s: State<I, S>, n: nat, count: nat, clocks: seq<int>) {
    && ListsOk(s.cells, n, count, s.layout) && CM.UniqueKeys(s.table, s.chains)
    && count <= |s.states| == |s.table.ids|
    && AllAgree(s.layout, s.chains.owner, n)
    && |clocks| == n && Sorted(s.cells, n, s.layout, clocks)
  }

  /** Partition `p` now holds `m`, and the other partitions what they held before. */
  ghost predicate Changed<I, S>(s: State<I, S>, t: State<I, S>, n: nat, p: nat, m: map<I, Entry<S>>) {
    && CM.UniqueKeys(s.table, s.chains) && CM.UniqueKeys(t.table, t.chains)
    && forall q: nat {:trigger Sets(t, n, q)} :: Sets(t, n, q) == if q == p then m else Sets(s, n, q)
  }

  /** An index is in partition `p` with id `id` exactly when it is on the ring of core `p` and its cell
      stores `id`. */
  lemma StoredExactlyWhenOnRing<I, S>(s: State<I, S>, n: nat, count: nat, clocks: seq<int>, p: nat, id: I, x: nat)
    requires Coherent(s, n, count, clocks) && p < n && x < count
    ensures (id in CM.Contents(s.table, s.chains, p) && CM.Contents(s.table, s.chains, p)[id] == x)
            <==> (x + Shift(n) in s.layout.lists[Ring(p)] && s.table.ids[x] == id)
  {
    CM.ContentsOk(s.table, s.chains, p);
    assert Agree(s.layout, s.chains.owner, n, x);
    AllocatedByListInd(s.cells, n, count, s.layout, x + Shift(n));
    assert ListOk(s.cells, n, count, s.layout, Ring(p));
    if x + Shift(n) in s.layout.lists[Ring(p)] && s.table.ids[x] == id {
      OwnerIsStored(s.table, s.chains, p, x);
    }
  }

  lemma OwnerIsStored<I>(t: CM.Table<I>, c: CM.Chains, p: nat, x: int)
    requires CM.UniqueKeys(t, c) && x in c.owner && c.owner[x] == p && 0 <= x < |t.ids|
    ensures t.ids[x] in CM.Contents(t, c, p) && CM.Contents(t, c, p)[t.ids[x]] == x
  {
    assert t.ids[x] in CM.Contents(t, c, p);
    assert CM.SameKey(t, c, x, CM.Contents(t, c, p)[t.ids[x]]);
  }

  /** Every stored id has an entry, whose index is on the partition's ring. */
  lemma EntryOf<I, S>(s: State<I, S>, n: nat, count: nat, clocks: seq<int>, p: nat, id: I)
    requires Coherent(s, n, count, clocks) && p < n
    ensures id in Sets(s, n, p) <==> id in CM.Contents(s.table, s.chains, p)
    ensures id in Sets(s, n, p) ==>
              var x := CM.Contents(s.table, s.chains, p)[id];
              && 0 <= x < count && s.table.ids[x] == id && x in s.chains.owner && s.chains.owner[x] == p
              && Held(s.layout, x + Shift(n)) && s.layout.home[x + Shift(n)] == Ring(p)
              && x + Shift(n) in s.layout.lists[Ring(p)]
              && Sets(s, n, p)[id] == Entry(s.states[x], s.cells[x + Shift(n)].time)
  {
    CM.ContentsOk(s.table, s.chains, p);
    if id in CM.Contents(s.table, s.chains, p) {
      var x := CM.Contents(s.table, s.chains, p)[id];
      assert Agree(s.layout, s.chains.owner, n, x);
      AllocatedByListInd(s.cells, n, count, s.layout, x + Shift(n));
    }
  }

  /** A packet set is alone on the partition's ring exactly when it is the only one of the partition. */
  lemma AloneInPartition<I, S>(s: State<I, S>, n: nat, count: nat, clocks: seq<int>, p: nat, id: I)
    requires Coherent(s, n, count, clocks) && p < n && id in Sets(s, n, p)
    ensures |s.layout.lists[Ring(p)]| == 1 <==> Sets(s, n, p).Keys == {id}
  {
    var r, shift := s.layout.lists[Ring(p)], Shift(n);
    assert ListOk(s.cells, n, count, s.layout, Ring(p));
    EntryOf(s, n, count, clocks, p, id);
    if |r| == 1 {
      forall k | k in Sets(s, n, p) ensures k == id {
        EntryOf(s, n, count, clocks, p, k);
      }
    } else {
      var x := CM.Contents(s.table, s.chains, p)[id];
      var y := if r[0] == x + shift then r[1] else r[0];
      assert y in r;
      var k := s.table.ids[y - shift];
      StoredExactlyWhenOnRing(s, n, count, clocks, p, k, y - shift);
      EntryOf(s, n, count, clocks, p, k);
      assert k in Sets(s, n, p) && k != id;
    }
  }

  lemma CommitOk<I, S>(s: State<I, S>, t: State<I, S>, n: nat, count: nat, clocks: seq<int>, core: nat, x: nat, id: I,
                       st: S, time: int)
    requires Coherent(s, n, count, clocks) && core < n && clocks[core] <= time && x < count
    requires s.layout.lists[Free(core)] != [] && s.layout.lists[Free(core)][0] == x + Shift(n)
    requires id !in CM.Contents(s.table, s.chains, core)
    requires t.layout == CD.Installed(s.layout, Free(core), core) && ListsOk(t.cells, n, count, t.layout)
    requires OnlyTime(s.cells, t.cells, x + Shift(n), time) && t.states == s.states[x := st]
    requires t.table.ids == s.table.ids[x := id] && t.chains.owner == s.chains.owner[x := core]
    requires CM.UniqueKeys(t.table, t.chains)
    ensures Coherent(t, n, count, clocks[core := time])
    ensures Changed(s, t, n, core, Sets(s, n, core)[id := Entry(st, time)])
  {
    InstallAgrees(s.cells, n, count, s.layout, s.chains.owner, core, x);
    InstallIsLatest(s.cells, t.cells, n, count, s.layout, core, clocks, time);
    forall q: nat
      ensures Sets(t, n, q) == if q == core then Sets(s, n, core)[id := Entry(st, time)] else Sets(s, n, q)
    {
      var index := CM.Contents(s.table, s.chains, q);
      CM.ContentsOk(s.table, s.chains, q);
      CM.PutContents(s.table, t.table, s.chains, t.chains, core, x, id, q);
      if q == core {
        LookupPut(index, s.states, s.cells, t.cells, n, x, id, st, time);
      } else {
        LookupOther(index, s.states, t.states, s.cells, t.cells, n, x, time);
      }
    }
  }

  lemma RefreshOk<I, S>(s: State<I, S>, t: State<I, S>, n: nat, count: nat, clocks: seq<int>, p: nat, x: nat, id: I,
                        time: int)
    requires Coherent(s, n, count, clocks) && p < n && clocks[p] <= time && id in Sets(s, n, p)
    requires CM.Contents(s.table, s.chains, p)[id] == x
    requires IsLifted(s.layout, t.layout, x + Shift(n)) && ListsOk(t.cells, n, count, t.layout)
    requires OnlyTime(s.cells, t.cells, x + Shift(n), time)
    requires t.states == s.states && t.table == s.table && t.chains == s.chains
    ensures Coherent(t, n, count, clocks[p := time])
    ensures Changed(s, t, n, p, Sets(s, n, p)[id := Sets(s, n, p)[id].(time := time)])
  {
    EntryOf(s, n, count, clocks, p, id);
    LiftAgrees(s.layout, t.layout, s.chains.owner, n, x + Shift(n));
    LiftedIsLatest(s.cells, t.cells, n, count, s.layout, t.layout, x + Shift(n), clocks, time);
    forall q: nat
      ensures Sets(t, n, q) == if q == p then Sets(s, n, p)[id := Sets(s, n, p)[id].(time := time)] else Sets(s, n, q)
    {
      var index := CM.Contents(s.table, s.chains, q);
      CM.ContentsOk(s.table, s.chains, q);
      if q == p {
        LookupTouch(index, s.states, s.cells, t.cells, n, x, id, time);
      } else {
        LookupOther(index, s.states, t.states, s.cells, t.cells, n, x, time);
      }
    }
  }

  /** Index `x` of partition `p` has been rejuvenated. */
  ghost predicate Rejuvenated<I, S>(s: State<I, S>, t: State<I, S>, n: nat, count: nat, p: nat, x: nat, time: int) {
    && Ring(p) in s.layout.lists && s.layout.lists[Ring(p)] != []
    && t == s.(cells := t.cells, layout := t.layout) && ListsOk(t.cells, n, count, t.layout)
    && IsLifted(s.layout, t.layout, x + Shift(n)) && s.layout.home[x + Shift(n)] == Ring(p)
    && if |s.layout.lists[Ring(p)]| == 1 then t == s else OnlyTime(s.cells, t.cells, x + Shift(n), time)
  }

  /** The refresh of the only packet set of a partition changes nothing. */
  lemma RefreshEither<I, S>(s: State<I, S>, t: State<I, S>, n: nat, count: nat, clocks: seq<int>, p: nat, x: nat, id: I,
                            time: int)
    requires Coherent(s, n, count, clocks) && p < n && clocks[p] <= time && id in Sets(s, n, p)
    requires CM.Contents(s.table, s.chains, p)[id] == x && Rejuvenated(s, t, n, count, p, x, time)
    ensures Coherent(t, n, count, clocks[p := time]) && OneLifted(s.layout, t.layout, p)
    ensures if |s.layout.lists[Ring(p)]| == 1 then t == s
            else Changed(s, t, n, p, Sets(s, n, p)[id := Sets(s, n, p)[id].(time := time)])
  {
    if |s.layout.lists[Ring(p)]| == 1 {
      RaiseOk(s, n, count, clocks, p, time);
    } else {
      RefreshOk(s, t, n, count, clocks, p, x, id, time);
    }
  }

  lemma ForgetOk<I, S>(s: State<I, S>, t: State<I, S>, n: nat, count: nat, clocks: seq<int>, p: nat, x: nat)
    requires Coherent(s, n, count, clocks) && p < n && x < count
    requires s.layout.lists[Ring(p)] != [] && s.layout.lists[Ring(p)][0] == x + Shift(n) < |s.cells|
    requires t.layout == CD.Freed(s.layout, p, 0) && ListsOk(t.cells, n, count, t.layout)
    requires OnlyTime(s.cells, t.cells, x + Shift(n), s.cells[x + Shift(n)].time)
    requires t.states == s.states && t.table.ids == s.table.ids && t.chains.owner == s.chains.owner - {x as int}
    requires CM.UniqueKeys(t.table, t.chains)
    ensures Coherent(t, n, count, clocks)
    ensures var id := s.table.ids[x];
            && id in Sets(s, n, p) && Sets(s, n, p)[id].time == s.cells[x + Shift(n)].time
            && Changed(s, t, n, p, Sets(s, n, p) - {id})
  {
    var id, time := s.table.ids[x], s.cells[x + Shift(n)].time;
    FreedAgrees(s.cells, n, count, s.layout, s.chains.owner, p, 0, x);
    FreedKeepsSorted(s.cells, t.cells, n, count, s.layout, p, 0, clocks);
    OwnerIsStored(s.table, s.chains, p, x);
    EntryOf(s, n, count, clocks, p, id);
    forall q: nat ensures Sets(t, n, q) == if q == p then Sets(s, n, p) - {id} else Sets(s, n, q) {
      var index := CM.Contents(s.table, s.chains, q);
      CM.ContentsOk(s.table, s.chains, q);
      CM.EraseContents(s.table, t.table, s.chains, t.chains, p, x, q);
      if q == p {
        LookupErase(index, s.states, s.cells, t.cells, n, x, id, time);
      } else {
        LookupOther(index, s.states, t.states, s.cells, t.cells, n, x, time);
      }
    }
  }

  lemma RaiseOk<I, S>(s: State<I, S>, n: nat, count: nat, clocks: seq<int>, p: nat, time: int)
    requires Coherent(s, n, count, clocks) && p < n && clocks[p] <= time
    ensures Coherent(s, n, count, clocks[p := time])
  {
    SortedRaise(s.cells, n, s.layout, clocks, p, time);
  }

  // ---- Expiration

  /** The first cell of the core's ring has moved to its free list. */
  ghost predicate FirstFreed(l: Layout, m: Layout, core: nat) {
    Ring(core) in l.lists && Free(core) in l.lists && l.lists[Ring(core)] != [] && m == CD.Freed(l, core, 0)
  }

  /** Cells of the core's ring have moved to its free list, one after the other, the first one each time. */
  ghost predicate FreedOneByOne(trace: seq<Layout>, core: nat) {
    forall i {:trigger trace[i]} :: 0 < i < |trace| ==> FirstFreed(trace[i - 1], trace[i], core)
  }

  lemma OneMoreFreed(trace: seq<Layout>, l: Layout, core: nat)
    requires FreedOneByOne(trace, core) && trace != [] && FirstFreed(trace[|trace| - 1], l, core)
    ensures FreedOneByOne(trace + [l], core)
  {
  }

  /** One cell of the core's ring has moved to its end. */
  ghost predicate OneLifted(l: Layout, m: Layout, core: nat) {
    && Ring(core) in l.lists
    && exists k: nat :: k < |l.lists[Ring(core)]| && m == Lifted(l, Ring(core), k)
  }

  /** The packet sets with a recorded use since `last`. */
  ghost function Recent<I, S>(m: map<I, Entry<S>>, last: int): map<I, Entry<S>> {
    map id | id in m && m[id].time >= last :: m[id]
  }

  /** Only packet sets without a recorded use since `last` are gone. */
  ghost predicate Trimmed<I, S>(m: map<I, Entry<S>>, m': map<I, Entry<S>>, last: int) {
    && (forall id :: id in m' ==> id in m && m'[id] == m[id])
    && (forall id :: id in m && id !in m' ==> m[id].time < last)
  }

  /** A pass over partition `p` on the way from `s`. */
  ghost predicate Progress<I, S>(s: State<I, S>, t: State<I, S>, n: nat, p: nat, last: int) {
    && CM.UniqueKeys(s.table, s.chains) && CM.UniqueKeys(t.table, t.chains)
    && Trimmed(Sets(s, n, p), Sets(t, n, p), last) && Changed(s, t, n, p, Sets(t, n, p))
  }

  lemma ProgressStep<I, S>(s: State<I, S>, t: State<I, S>, u: State<I, S>, n: nat, p: nat, id: I, last: int)
    requires Progress(s, t, n, p, last) && id in Sets(t, n, p) && Sets(t, n, p)[id].time < last
    requires Changed(t, u, n, p, Sets(t, n, p) - {id})
    ensures Progress(s, u, n, p, last)
  {
    forall q: nat ensures Sets(u, n, q) == if q == p then Sets(u, n, p) else Sets(s, n, q) {
      assert Sets(t, n, q) == if q == p then Sets(t, n, p) else Sets(s, n, q);
    }
  }

  /** The oldest index of the partition is `x`, and it has expired. */
  ghost predicate OldestIs<I, S>(s: State<I, S>, n: nat, count: nat, p: nat, x: nat, last: int)
    requires Ring(p) in s.layout.lists
  {
    var r := s.layout.lists[Ring(p)];
    r != [] && r[0] == x + Shift(n) < |s.cells| && x < count && s.cells[x + Shift(n)].time < last
  }

  ghost predicate OldestIsRecent<I, S>(s: State<I, S>, p: nat, last: int)
    requires Ring(p) in s.layout.lists
  {
    var r := s.layout.lists[Ring(p)];
    r == [] || (0 <= r[0] < |s.cells| && s.cells[r[0]].time >= last)
  }

  lemma ForgetProgress<I, S>(s: State<I, S>, t: State<I, S>, u: State<I, S>, n: nat, count: nat, clocks: seq<int>,
                             p: nat, x: nat, last: int)
    requires Coherent(t, n, count, clocks) && p < n && OldestIs(t, n, count, p, x, last) && Progress(s, t, n, p, last)
    requires u.layout == CD.Freed(t.layout, p, 0) && ListsOk(u.cells, n, count, u.layout)
    requires OnlyTime(t.cells, u.cells, x + Shift(n), t.cells[x + Shift(n)].time)
    requires u.states == t.states && u.table.ids == t.table.ids && u.chains.owner == t.chains.owner - {x as int}
    requires CM.UniqueKeys(u.table, u.chains)
    ensures Coherent(u, n, count, clocks) && Progress(s, u, n, p, last)
  {
    ForgetOk(t, u, n, count, clocks, p, x);
    ProgressStep(s, t, u, n, p, t.table.ids[x], last);
  }

  /** When the oldest index of a partition is recent, all its packet sets are. */
  lemma AllRecent<I, S>(m: map<I, Entry<S>>, s: State<I, S>, n: nat, count: nat, clocks: seq<int>, p: nat, last: int)
    requires Coherent(s, n, count, clocks) && p < n && OldestIsRecent(s, p, last) && Trimmed(m, Sets(s, n, p), last)
    ensures Sets(s, n, p) == Recent(m, last)
  {
    forall id | id in Sets(s, n, p) ensures Sets(s, n, p)[id].time >= last {
      EntryOf(s, n, count, clocks, p, id);
      var x, r := CM.Contents(s.table, s.chains, p)[id] + Shift(n), s.layout.lists[Ring(p)];
      assert RingSorted(s.cells, r, clocks[p]);
      var j :| 0 <= j < |r| && r[j] == x;
      assert j > 0 ==> InOrder(s.cells, r, 0, j);
    }
  }

  lemma FirstOfRing(c: seq<Cell>, n: nat, count: nat, l: Layout, core: nat, k: nat)
    requires ListsOk(c, n, count, l) && core < n && k < |l.lists[Ring(core)]|
    requires l.lists[Ring(core)][k] == l.lists[Ring(core)][0]
    ensures k == 0
  {
    assert ListOk(c, n, count, l, Ring(core));
  }

  lemma QuotientPositive(x: nat, n: nat)
    requires 0 < n <= x
    ensures 0 < x / n <= x
  {
    var q, r := x / n, x % n;
    assert x == n * q + r;
    ProductBounds(n, q);
    if q >= 0 {
      ProductMonotone(1, n, q);
    }
  }

  /** The number of buckets of a partition. */
  method PartitionWidth(size: nat, n: nat) returns (width: nat)
    requires 0 < n <= size <= 0x8000_0000
    ensures IsPowerOfTwo(width)
  {
    var mapSize := RoundUp(size);
    QuotientPositive(mapSize, n);
    width := RoundUp(mapSize / n);
  }

  class PktSetManager<I(==), S> {
    const chain: CD.ConcurrentDoubleChain
    const idToIndex: CM.ConcurrentMap<I>
    const states: array<S>
    const log: array<LogEntry<S>>
    const validity: int

    /** The latest time at which each core has worked on its partition. */
    ghost var clocks: seq<int>

    ghost function View(): State<I, S>
      reads chain, chain.cells, idToIndex, idToIndex.buckets, idToIndex.next, idToIndex.ids, states
    {
      State(chain.cells[..], chain.layout, idToIndex.View(), idToIndex.chains, states[..])
    }

    /** No two of the arrays are the same object. */
    ghost predicate Separate() {
      && states as object != idToIndex.buckets as object && states as object != idToIndex.next as object
      && states as object != idToIndex.ids as object && states as object != chain.cells as object
      && states as object != log as object
      && chain.cells as object != idToIndex.ids as object && log as object != idToIndex.ids as object
      && chain.cells as object != idToIndex.buckets as object && chain.cells as object != idToIndex.next as object
    }

    ghost predicate Shaped()
      reads chain, chain.cells, idToIndex, idToIndex.buckets, idToIndex.next, idToIndex.ids
    {
      && Separate() && chain.Valid() && idToIndex.Valid()
      && idToIndex.partitions == chain.n && idToIndex.ids.Length == chain.size == states.Length
      && log.Length == chain.n
    }

    ghost predicate Valid()
      reads this, chain, chain.cells, idToIndex, idToIndex.buckets, idToIndex.next, idToIndex.ids, states
    {
      Shaped() && Coherent(View(), chain.n, chain.Count(), clocks)
    }

    /** The registered packet sets of partition `p`. */
    ghost function PktSets(p: nat): map<I, Entry<S>>
      reads chain, chain.cells, idToIndex, idToIndex.buckets, idToIndex.next, idToIndex.ids, states
      requires idToIndex.Valid()
    {
      Sets(View(), chain.n, p)
    }

    /** `init_pkt_set_manager` for `n` cores, when memory suffices. */
    constructor (hash: I -> nat, size: nat, validity: int, n: nat, blankId: I, blankState: S)
      requires 0 < n <= size <= 0x8000_0000
      ensures Valid() && clocks == seq(n, _ => 0) && chain.n == n && this.validity == validity
      ensures idToIndex.chains.owner == map[] && chain.layout == InitialLayout(n, size / n)
      ensures fresh(chain.cells) && fresh(chain) && fresh(idToIndex) && fresh(idToIndex.buckets)
      ensures fresh(idToIndex.next) && fresh(idToIndex.ids) && fresh(states) && fresh(log)
      ensures forall c :: 0 <= c < n ==> !log[c].addPktSet
    {
      var width := PartitionWidth(size, n);
      chain := new CD.ConcurrentDoubleChain(size, n);
      idToIndex := new CM.ConcurrentMap<I>(hash, n, width, size, blankId);
      states := new S[size](_ => blankState);
      log := new LogEntry<S>[n](_ => LogEntry(false, blankState));
      this.validity := validity;
      clocks := seq(n, _ => 0);
      new;
      EmptyIsCoherent(View(), n, chain.Count());
    }

    /** `add_pkt_set_log_clear`. */
    method AddPktSetLogClear(core: nat)
      requires Valid() && core < chain.n
      modifies log
      ensures Valid() && View() == old(View())
      ensures log[..] == old(log[..])[core := log[core]] && !log[core].addPktSet
    {
      log[core] := log[core].(addPktSet := false);
    }

    /** `add_pkt_set_log`. */
    method AddPktSetLog(core: nat, state: S) returns (ok: bool)
      requires Valid() && core < chain.n
      modifies log
      ensures Valid() && View() == old(View()) && (ok <==> chain.layout.lists[Free(core)] != [])
      ensures log[..] == if ok then old(log[..])[core := LogEntry(true, state)] else old(log[..])
    {
      ok := chain.HasFreeIndexes(core);
      if ok {
        log[core] := LogEntry(true, state);
      }
    }

    /** `add_pkt_set_commit` of an unknown packet set.  The free index that the log has seen is still
        there, so the allocation is local. */
    method AddPktSetCommit(core: nat, id: I, time: int)
      requires Valid() && core < chain.n && clocks[core] <= time
      requires log[core].addPktSet ==> chain.layout.lists[Free(core)] != [] && id !in PktSets(core)
      modifies chain.cells, chain`layout, idToIndex`chains, idToIndex.buckets, idToIndex.next, idToIndex.ids, states,
               this`clocks
      ensures Valid() && clocks == old(clocks)[core := time]
      ensures !log[core].addPktSet ==> View() == old(View())
      ensures log[core].addPktSet ==>
                && chain.layout == old(CD.Installed(chain.layout, Free(core), core))
                && Changed(old(View()), View(), chain.n, core, old(PktSets(core))[id := Entry(log[core].state, time)])
    {
      ghost var n, s := chain.n, View();
      EntryOf(s, n, chain.Count(), clocks, core, id);
      if log[core].addPktSet {
        FirstFreeIsLoose(s, n, chain.Count(), clocks, core);
        var ok, index;
        ghost var local;
        ok, index, local := chain.AllocateNewIndex(core, time);
        assert local;
        assert idToIndex.View() == s.table;
        idToIndex.Put(id, core, index);
        states[index] := log[core].state;
        CommitOk(s, View(), n, chain.Count(), clocks, core, index, id, log[core].state, time);
      } else {
        RaiseOk(s, n, chain.Count(), clocks, core, time);
      }
      clocks := clocks[core := time];
    }

    /** `get_pkt_set_state`: the index of the state, and the use is recorded, unless the packet set is the
        only one of the partition. */
    method GetPktSetState(id: I, p: nat, time: int) returns (found: bool, index: nat)
      requires Valid() && p < chain.n && clocks[p] <= time
      modifies chain.cells, chain`layout, this`clocks
      ensures Valid() && clocks == old(clocks)[p := time] && (found <==> id in old(PktSets(p)))
      ensures found ==> index < states.Length && states[index] == old(PktSets(p))[id].state
      ensures found && old(PktSets(p)).Keys != {id} ==>
                Changed(old(View()), View(), chain.n, p, old(PktSets(p))[id := old(PktSets(p))[id].(time := time)])
      ensures !found || old(PktSets(p)).Keys == {id} ==> View() == old(View())
      ensures chain.layout == old(chain.layout) || OneLifted(old(chain.layout), chain.layout, p)
    {
      ghost var n, s := chain.n, View();
      EntryOf(s, n, chain.Count(), clocks, p, id);
      index := 0;
      var x;
      found, x := idToIndex.Get(id, p);
      if !found {
        RaiseOk(s, n, chain.Count(), clocks, p, time);
        clocks := clocks[p := time];
      } else {
        index := x;
        AloneInPartition(s, n, chain.Count(), clocks, p, id);
        Refresh(id, p, index, time);
      }
    }

    /** The refresh of a registered packet set. */
    method Refresh(id: I, p: nat, index: nat, time: int)
      requires Valid() && p < chain.n && clocks[p] <= time && index < chain.Count()
      requires id in PktSets(p) && id in idToIndex.Map(p) && idToIndex.Map(p)[id] == index
      requires index + Shift(chain.n) in chain.RingOf(p)
      modifies chain.cells, chain`layout, this`clocks
      ensures Valid() && clocks == old(clocks)[p := time]
      ensures if |old(chain.RingOf(p))| > 1
              then Changed(old(View()), View(), chain.n, p, old(PktSets(p))[id := old(PktSets(p))[id].(time := time)])
              else View() == old(View())
      ensures chain.layout == old(chain.layout) || OneLifted(old(chain.layout), chain.layout, p)
    {
      ghost var s := View();
      Rejuvenate(p, index, time);
      RefreshEither(s, View(), chain.n, chain.Count(), clocks, p, index, id, time);
      clocks := clocks[p := time];
    }

    method Rejuvenate(p: nat, index: nat, time: int)
      requires Shaped() && p < chain.n && index < chain.Count() && index + Shift(chain.n) in chain.RingOf(p)
      modifies chain.cells, chain`layout
      ensures Shaped() && Rejuvenated(old(View()), View(), chain.n, chain.Count(), p, index, time)
    {
      var ok := chain.RejuvenateIndex(index, p, time);
    }

    /** Forget the oldest packet set of the partition, in a pass that has started from `s`. */
    method DeleteOldest(ghost s: State<I, S>, p: nat, index: nat, last: int)
      requires Valid() && p < chain.n && OldestIs(View(), chain.n, chain.Count(), p, index, last)
      requires Progress(s, View(), chain.n, p, last)
      modifies chain.cells, chain`layout, idToIndex`chains, idToIndex.buckets, idToIndex.next
      ensures Valid() && |chain.RingOf(p)| < |old(chain.RingOf(p))| && Progress(s, View(), chain.n, p, last)
      ensures FirstFreed(old(chain.layout), chain.layout, p)
    {
      ghost var t := View();
      Release(p, index);
      ForgetProgress(s, t, View(), chain.n, chain.Count(), clocks, p, index, last);
    }

    /** Erase the id of the partition's first index and free the index. */
    method Release(p: nat, index: nat)
      requires Valid() && p < chain.n && index < chain.Count()
      requires chain.RingOf(p) != [] && chain.RingOf(p)[0] == index + Shift(chain.n)
      modifies chain.cells, chain`layout, idToIndex`chains, idToIndex.buckets, idToIndex.next
      ensures Shaped() && chain.layout == CD.Freed(old(chain.layout), p, 0)
      ensures OnlyTime(old(chain.cells[..]), chain.cells[..], index + Shift(chain.n),
                       old(chain.cells[index + Shift(chain.n)].time))
      ensures states[..] == old(states[..]) && idToIndex.ids[..] == old(idToIndex.ids[..])
      ensures idToIndex.chains.owner == old(idToIndex.chains.owner) - {index as int}
    {
      ghost var n, t := chain.n, View();
      var id := idToIndex.ids[index];
      StoredExactlyWhenOnRing(t, n, chain.Count(), clocks, p, id, index);
      idToIndex.Erase(id, p);
      var ok;
      ghost var k;
      ok, k := chain.FreeIndex(index, p);
      FirstOfRing(t.cells, n, chain.Count(), t.layout, p, k);
    }

    /** The check for an expired packet set. */
    method NextExpired(p: nat, last: int) returns (expired: bool, index: nat)
      requires Valid() && p < chain.n
      ensures if expired then OldestIs(View(), chain.n, chain.Count(), p, index, last)
              else OldestIsRecent(View(), p, last)
    {
      expired, index := chain.HasExpiredIndex(last, p);
    }

    /** The body of the loop. */
    method DeleteNext(ghost s: State<I, S>, p: nat, index: nat, last: int, ghost trace: seq<Layout>)
      returns (expired: bool, index': nat, ghost trace': seq<Layout>)
      requires Valid() && p < chain.n && OldestIs(View(), chain.n, chain.Count(), p, index, last)
      requires Progress(s, View(), chain.n, p, last)
      requires trace != [] && trace[|trace| - 1] == chain.layout && FreedOneByOne(trace, p)
      modifies chain.cells, chain`layout, idToIndex`chains, idToIndex.buckets, idToIndex.next
      ensures Valid() && |chain.RingOf(p)| < |old(chain.RingOf(p))| && Progress(s, View(), chain.n, p, last)
      ensures trace' == trace + [chain.layout] && FreedOneByOne(trace', p)
      ensures if expired then OldestIs(View(), chain.n, chain.Count(), p, index', last)
              else OldestIsRecent(View(), p, last)
    {
      DeleteOldest(s, p, index, last);
      OneMoreFreed(trace, chain.layout, p);
      trace' := trace + [chain.layout];
      expired, index' := NextExpired(p, last);
    }

    /** `delete_expired_pkt_sets`: exactly the packet sets of the partition without a recent recorded use
        are forgotten. */
    method DeleteExpiredPktSets(time: int, p: nat) returns (count: nat, ghost trace: seq<Layout>)
      requires Valid() && p < chain.n
      modifies chain.cells, chain`layout, idToIndex`chains, idToIndex.buckets, idToIndex.next
      ensures Valid() && Changed(old(View()), View(), chain.n, p, Recent(old(PktSets(p)), time - validity))
      ensures |trace| == count + 1 && trace[0] == old(chain.layout) && trace[count] == chain.layout
      ensures FreedOneByOne(trace, p)
    {
      ghost var s := View();
      count, trace := DeleteWhileExpired(s, p, time - validity);
      AllRecent(Sets(s, chain.n, p), View(), chain.n, chain.Count(), clocks, p, time - validity);
    }

    /** Its loop. */
    method DeleteWhileExpired(ghost s: State<I, S>, p: nat, last: int) returns (count: nat, ghost trace: seq<Layout>)
      requires Valid() && p < chain.n && s == View()
      modifies chain.cells, chain`layout, idToIndex`chains, idToIndex.buckets, idToIndex.next
      ensures Valid() && Progress(s, View(), chain.n, p, last) && OldestIsRecent(View(), p, last)
      ensures |trace| == count + 1 && trace[0] == old(chain.layout) && trace[count] == chain.layout
      ensures FreedOneByOne(trace, p)
    {
      count, trace := 0, [s.layout];
      var expired: bool;
      var index: nat;
      expired, index := NextExpired(p, last);
      while expired
        invariant Valid() && Progress(s, View(), chain.n, p, last)
        invariant |trace| == count + 1 && trace[0] == s.layout && trace[count] == chain.layout
        invariant FreedOneByOne(trace, p)
        invariant if expired then OldestIs(View(), chain.n, chain.Count(), p, index, last)
                  else OldestIsRecent(View(), p, last)
        decreases |chain.RingOf(p)|
      {
        expired, index, trace := DeleteNext(s, p, index, last, trace);
        count := count + 1;
      }
    }
  }

  lemma FirstFreeIsLoose<I, S>(s: State<I, S>, n: nat, count: nat, clocks: seq<int>, core: nat)
    requires Coherent(s, n, count, clocks) && core < n && s.layout.lists[Free(core)] != []
    ensures s.layout.lists[Free(core)][0] - Shift(n) !in s.chains.owner
  {
    InstallAgrees(s.cells, n, count, s.layout, s.chains.owner, core, s.layout.lists[Free(core)][0] - Shift(n));
  }

  lemma EmptyIsCoherent<I, S>(s: State<I, S>, n: nat, count: nat)
    requires ListsOk(s.cells, n, count, s.layout) && s.chains.owner == map[] && CM.UniqueKeys(s.table, s.chains)
    requires count <= |s.states| == |s.table.ids|
    requires forall a :: a in s.layout.lists && a.Ring? ==> s.layout.lists[a] == []
    ensures Coherent(s, n, count, seq(n, _ => 0))
  {
    forall x ensures Agree(s.layout, map[], n, x) {
      if Held(s.layout, x + Shift(n)) {
        AllocatedByListInd(s.cells, n, count, s.layout, x + Shift(n));
      }
    }
  }
}
