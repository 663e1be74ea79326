/** The MAC learning table of the bridge (nf/bridge/main.c): a hash map from MAC addresses to indexes,
    an allocator of indexes with expiration, and two vectors that the indexes select from.

    A packet or a whole expiration pass is one transaction over the four structures.  `Contention` says
    which of their objects other threads hold; a transaction that meets one of them is rolled back. */
module MacTable {
  import opened CellLists
  import opened Counting
  import opened DchainExp
  import HashMap

  type Mac = m: int | 0 <= m < 0x1_0000_0000_0000

  datatype MacEntry = MacEntry(dev: nat, time: int)

  datatype Contention = Contention(cells: set<int>, entries: set<int>, macs: set<int>, vals: set<int>)

  const CALM := Contention({}, {}, {}, {})

  const REFRESH_INTERVAL: int := 180_000_000_000

  // ---- The four structures as one value

  datatype State = State(cells: seq<Cell>, layout: Layout, index: map<Mac, int>,
                         macs: seq<Mac>, vals: seq<MacEntry>)

  /** The map sends `k` to an allocated index at which the key vector stores `k`. */
  ghost predicate KeyOk(s: State, n: nat, count: nat, k: Mac)
    requires k in s.index
  {
    var i := s.index[k];
    && 0 <= i < count && i < |s.macs| && i < |s.vals|
    && Held(s.layout, i + Shift(n)) && s.macs[i] == k
  }

  /** The MAC stored at an allocated index is sent to it, and the index expires `validity` after the
      last refresh. */
  ghost predicate SlotOk(s: State, n: nat, validity: int, i: nat)
    requires i < |s.macs| && i < |s.vals| && i + Shift(n) < |s.cells|
  {
    Held(s.layout, i + Shift(n)) ==>
      && s.macs[i] in s.index && s.index[s.macs[i]] == i
      && s.cells[i + Shift(n)].time == s.vals[i].time + validity
  }

  /** Map, vectors and allocator agree, in whatever order the times are. */
  ghost predicate Coherent(s: State, n: nat, count: nat, validity: int) {
    && ListsOk(s.cells, n, count, s.layout)
    && count <= |s.macs| == |s.vals|
    && (forall k {:trigger KeyOk(s, n, count, k)} :: k in s.index ==> KeyOk(s, n, count, k))
    && (forall i: nat {:trigger SlotOk(s, n, validity, i)} :: i < count ==> SlotOk(s, n, validity, i))
  }

  /** The map sends a MAC to an index exactly when the index is allocated and stores the MAC. */
  lemma IndexedExactlyWhenAllocated(s: State, n: nat, count: nat, validity: int, k: Mac, i: nat)
    requires Coherent(s, n, count, validity) && i < count
    ensures (k in s.index && s.index[k] == i) <==> (Held(s.layout, i + Shift(n)) && s.macs[i] == k)
  {
    assert k in s.index ==> KeyOk(s, n, count, k);
    assert SlotOk(s, n, validity, i);
  }

  /** What the table says about each MAC that it knows. */
  ghost function Known(s: State): map<Mac, MacEntry> {
    map k | k in s.index && 0 <= s.index[k] < |s.vals| :: s.vals[s.index[k]]
  }

  lemma KnownKeys(s: State, n: nat, count: nat, validity: int)
    requires Coherent(s, n, count, validity)
    ensures Known(s).Keys == s.index.Keys
  {
    forall k | k in s.index ensures k in Known(s) {
      assert KeyOk(s, n, count, k);
    }
  }

  // ---- Room

  lemma {:induction false} KeysFit(m: map<Mac, int>, macs: seq<Mac>, places: set<int>)
    requires forall k :: k in m ==> m[k] in places && 0 <= m[k] < |macs| && macs[m[k]] == k
    ensures |m| <= |places|
    decreases |places|
  {
    if k :| k in m {
      var m' := m - {k};
      KeysFit(m', macs, places - {m[k]});
      assert m.Keys == m'.Keys + {k};
      assert |m.Keys| == |m| && |m'.Keys| == |m'|;
    }
  }

  ghost predicate Owned(m: map<Mac, int>, macs: seq<Mac>, i: int) {
    0 <= i < |macs| && macs[i] in m && m[macs[i]] == i
  }

  lemma {:induction false} PlacesFit(m: map<Mac, int>, macs: seq<Mac>, count: nat)
    requires forall i {:trigger Owned(m, macs, i)} :: 0 <= i < count ==> Owned(m, macs, i)
    ensures count <= |m|
  {
    if count > 0 {
      var i := count - 1;
      assert Owned(m, macs, i);
      var m' := m - {macs[i]};
      forall j | 0 <= j < i ensures Owned(m', macs, j) {
        assert Owned(m, macs, j);
      }
      PlacesFit(m', macs, i);
      assert m.Keys == m'.Keys + {macs[i]};
      assert |m.Keys| == |m| && |m'.Keys| == |m'|;
    }
  }

  /** An insertion finds room as long as some index is free ... */
  lemma RoomWhileFree(s: State, n: nat, count: nat, validity: int, i: int)
    requires Coherent(s, n, count, validity)
    ensures |s.index| <= count
    ensures 0 <= i < count && !IndexHeld(s.layout, n, i) ==> |s.index| < count
  {
    forall k | k in s.index ensures KeyOk(s, n, count, k) {
    }
    KeysFit(s.index, s.macs, Range(count));
    if 0 <= i < count && !IndexHeld(s.layout, n, i) {
      KeysFit(s.index, s.macs, Range(count) - {i});
    }
  }

  /** ... and the table is full when none is. */
  lemma FullWhenAllHeld(s: State, n: nat, count: nat, validity: int)
    requires Coherent(s, n, count, validity) && AllHeld(s.layout, n, count)
    ensures |s.index| == count
  {
    RoomWhileFree(s, n, count, validity, 0);
    forall i | 0 <= i < count ensures Owned(s.index, s.macs, i) {
      assert IndexHeld(s.layout, n, i) && SlotOk(s, n, validity, i);
    }
    PlacesFit(s.index, s.macs, count);
  }

  // ---- Refreshing, learning and forgetting

  lemma RefreshOk(s: State, t: State, n: nat, count: nat, validity: int, k: Mac, now: int)
    requires Coherent(s, n, count, validity) && k in s.index && |t.cells| == |s.cells|
    requires var i := s.index[k];
             && IsLifted(s.layout, t.layout, i + Shift(n)) && SameHeld(s.layout, t.layout)
             && OnlyTime(s.cells, t.cells, i + Shift(n), now + validity)
             && ListsOk(t.cells, n, count, t.layout)
             && t.index == s.index && t.macs == s.macs && 0 <= i < |s.vals|
             && t.vals == s.vals[i := s.vals[i].(time := now)]
    ensures Coherent(t, n, count, validity)
    ensures k in Known(s) && Known(t) == Known(s)[k := Known(s)[k].(time := now)]
  {
    var i := s.index[k];
    assert KeyOk(s, n, count, k);
    forall h | h in t.index ensures KeyOk(t, n, count, h) {
      assert KeyOk(s, n, count, h);
    }
    forall j: nat | j < count ensures SlotOk(t, n, validity, j) {
      assert SlotOk(s, n, validity, j);
    }
  }

  lemma LearnOk(s: State, t: State, n: nat, count: nat, validity: int, k: Mac, i: nat, core: nat,
                dev: nat, now: int)
    requires Coherent(s, n, count, validity) && k !in s.index && i < count && core < n
    requires NowHeld(s.layout, t.layout, i + Shift(n)) && ListsOk(t.cells, n, count, t.layout)
    requires Appended(s.layout, t.layout, n, core, i + Shift(n))
    requires OnlyTime(s.cells, t.cells, i + Shift(n), now + validity)
    requires t.index == s.index[k := i] && t.macs == s.macs[i := k] && t.vals == s.vals[i := MacEntry(dev, now)]
    ensures Coherent(t, n, count, validity)
  {
    assert Held(t.layout, i + Shift(n));
    forall h | h in s.index ensures s.index[h] != i && KeyOk(s, n, count, h) {
      assert KeyOk(s, n, count, h);
    }
    forall h | h in t.index ensures KeyOk(t, n, count, h) {
    }
    forall j: nat | j < count ensures SlotOk(t, n, validity, j) {
      assert SlotOk(s, n, validity, j);
    }
  }

  lemma LearnKnown(s: State, t: State, n: nat, count: nat, validity: int, k: Mac, i: nat, e: MacEntry)
    requires Coherent(s, n, count, validity) && i < count
    requires !Held(s.layout, i + Shift(n))
    requires t.index == s.index[k := i] && t.vals == s.vals[i := e]
    ensures Known(t) == Known(s)[k := e]
  {
    forall h | h in s.index ensures s.index[h] != i {
      assert KeyOk(s, n, count, h);
    }
  }

  lemma ForgetOk(s: State, t: State, n: nat, count: nat, validity: int, core: nat, i: nat)
    requires Coherent(s, n, count, validity) && core < n && i < count
    requires s.layout.lists[Ring(core)] != [] && s.layout.lists[Ring(core)][0] == i + Shift(n)
    requires t.layout == Expired(s.layout, core) && NoLongerHeld(s.layout, t.layout, i + Shift(n))
    requires OnlyTime(s.cells, t.cells, i + Shift(n), MAX_TIME) && ListsOk(t.cells, n, count, t.layout)
    requires t.index == s.index - {s.macs[i]} && t.macs == s.macs && t.vals == s.vals
    ensures Coherent(t, n, count, validity)
    ensures s.macs[i] in s.index && s.index[s.macs[i]] == i
    ensures Known(t) == Known(s) - {s.macs[i]}
    ensures s.cells[i + Shift(n)].time == Known(s)[s.macs[i]].time + validity
  {
    assert SlotOk(s, n, validity, i);
    forall h | h in t.index ensures KeyOk(t, n, count, h) {
      assert KeyOk(s, n, count, h);
    }
    forall j: nat | j < count ensures SlotOk(t, n, validity, j) {
      assert SlotOk(s, n, validity, j);
    }
    KnownKeys(s, n, count, validity);
  }

  // ---- The order of the rings

  /** `x` is now the last one, and the others are as before. */
  ghost predicate MovedToEnd(s: seq<int>, t: seq<int>, x: int) {
    || (x !in s && t == s + [x])
    || exists k: nat :: k < |s| && s[k] == x && t == s[..k] + s[k + 1..] + [x]
  }

  /** Cell `x` now has the given time, and is the last one on its ring; the other rings are as before. */
  ghost predicate Renewed(s: State, t: State, n: nat, ring: nat, x: int, time: int) {
    && HasLists(n, s.layout) && HasLists(n, t.layout) && OnlyTime(s.cells, t.cells, x, time)
    && forall i: nat {:trigger Ring(i)} :: i < n ==>
         if i == ring then MovedToEnd(s.layout.lists[Ring(i)], t.layout.lists[Ring(i)], x)
         else x !in s.layout.lists[Ring(i)] && t.layout.lists[Ring(i)] == s.layout.lists[Ring(i)]
  }

  lemma LearnRenews(s: State, t: State, n: nat, count: nat, core: nat, x: int, time: int)
    requires ListsOk(s.cells, n, count, s.layout) && HasLists(n, t.layout) && core < n
    requires NowHeld(s.layout, t.layout, x) && Appended(s.layout, t.layout, n, core, x)
    requires OnlyTime(s.cells, t.cells, x, time)
    ensures Renewed(s, t, n, core, x, time)
  {
    forall i: nat | i < n ensures x !in s.layout.lists[Ring(i)] {
      assert ListOk(s.cells, n, count, s.layout, Ring(i));
    }
  }

  lemma RefreshRenews(s: State, t: State, n: nat, count: nat, x: int, time: int)
    requires ListsOk(s.cells, n, count, s.layout) && HasLists(n, t.layout) && Held(s.layout, x)
    requires IsLifted(s.layout, t.layout, x) && OnlyTime(s.cells, t.cells, x, time)
    ensures Renewed(s, t, n, s.layout.home[x].core, x, time)
  {
    var a := s.layout.home[x];
    forall i: nat | i < n && Ring(i) != a ensures x !in s.layout.lists[Ring(i)] {
      assert ListOk(s.cells, n, count, s.layout, Ring(i));
    }
  }

  /** A sorted ring stays sorted when the new time is not before the times on it. */
  lemma RenewedStaysSorted(s: State, t: State, n: nat, count: nat, ring: nat, x: int, time: int, bounds: seq<int>)
    requires ListsOk(s.cells, n, count, s.layout) && Renewed(s, t, n, ring, x, time) && ring < n == |bounds|
    requires Sorted(s.cells, n, s.layout, bounds) && bounds[ring] <= time
    ensures Sorted(t.cells, n, t.layout, bounds[ring := time])
  {
    forall i: nat | i < n ensures RingSorted(t.cells, t.layout.lists[Ring(i)], bounds[ring := time][i]) {
      var r := s.layout.lists[Ring(i)];
      assert ListOk(s.cells, n, count, s.layout, Ring(i)) && RingSorted(s.cells, r, bounds[i]);
      if i == ring {
        MovedStaysSorted(s.cells, t.cells, r, t.layout.lists[Ring(i)], x, time, bounds[i]);
      } else {
        assert forall j :: 0 <= j < |r| ==> r[j] in r;
        RingStaysSorted(s.cells, t.cells, r, |r|, x, bounds[i]);
      }
    }
  }

  lemma MovedStaysSorted(c: seq<Cell>, d: seq<Cell>, s: seq<int>, t: seq<int>, x: int, time: int, bound: int)
    requires NoRepeats(s) && MovedToEnd(s, t, x) && OnlyTime(c, d, x, time)
    requires RingSorted(c, s, bound) && bound <= time
    ensures RingSorted(d, t, time)
  {
    RingSortedRaise(c, s, bound, time);
    if x !in s {
      assert forall j :: 0 <= j < |s| ==> s[j] in s;
      RingStaysSorted(c, d, s, |s|, x, time);
    } else {
      var k: nat :| k < |s| && s[k] == x && t == s[..k] + s[k + 1..] + [x];
      RingStaysSorted(c, d, s, k, x, time);
    }
  }

  lemma OneKeyLess(m: map<Mac, int>, k: Mac)
    requires k in m
    ensures |m - {k}| < |m|
  {
    assert m.Keys == (m - {k}).Keys + {k};
    assert |m.Keys| == |m| && |(m - {k}).Keys| == |m - {k}|;
  }

  // ---- What a packet does, in terms of the known MACs

  datatype Verdict = Sent(dev: nat) | Flooded | Dropped | Aborted

  /** The table after a packet from `src`: a known MAC is refreshed when its last refresh is long ago,
      an unknown one is learned when there is room. */
  ghost function Learned(t: map<Mac, MacEntry>, room: nat, src: Mac, dev: nat, now: int): map<Mac, MacEntry> {
    if src in t then
      if now > t[src].time + REFRESH_INTERVAL then t[src := t[src].(time := now)] else t
    else if |t| < room then t[src := MacEntry(dev, now)]
    else t
  }

  /** Whether the packet changes the table. */
  ghost predicate Touched(t: map<Mac, MacEntry>, room: nat, src: Mac, now: int) {
    if src in t then now > t[src].time + REFRESH_INTERVAL else |t| < room
  }

  /** The ring of a known MAC, or the one of the core that learns it. */
  ghost function RingFor(s: State, n: nat, core: nat, src: Mac): nat {
    if src in s.index && s.index[src] + Shift(n) in s.layout.home && s.layout.home[s.index[src] + Shift(n)].Ring?
    then s.layout.home[s.index[src] + Shift(n)].core else core
  }

  /** The packet has put the index of `src`, which is the one it had or a free one, to the end of its ring,
      with the packet's time. */
  ghost predicate Placed(s: State, t: State, n: nat, core: nat, src: Mac, time: int) {
    && src in t.index && t.index == s.index[src := t.index[src]]
    && (src in s.index ==> t.index == s.index)
    && (src !in s.index ==> !Held(s.layout, t.index[src] + Shift(n)))
    && Renewed(s, t, n, RingFor(s, n, core, src), t.index[src] + Shift(n), time)
  }

  /** All that learning from a packet does. */
  ghost predicate Handled(s: State, t: State, n: nat, room: nat, validity: int, core: nat, src: Mac, dev: nat,
                          now: int) {
    && Known(t) == Learned(Known(s), room, src, dev, now)
    && if Touched(Known(s), room, src, now) then Placed(s, t, n, core, src, now + validity) else t == s
  }

  ghost function Delivery(t: map<Mac, MacEntry>, dst: Mac): Verdict {
    if dst in t then Sent(t[dst].dev) else Flooded
  }

  /** The entries that are still fresh at time `now`. */
  ghost function Fresh(t: map<Mac, MacEntry>, validity: int, now: int): map<Mac, MacEntry> {
    map k | k in t && t[k].time + validity >= now :: t[k]
  }

  lemma KnownSize(s: State, n: nat, count: nat, validity: int)
    requires Coherent(s, n, count, validity)
    ensures |Known(s)| == |s.index| <= count
  {
    KnownKeys(s, n, count, validity);
    RoomWhileFree(s, n, count, validity, 0);
    assert |Known(s).Keys| == |Known(s)| && |s.index.Keys| == |s.index|;
  }

  lemma NewIndexIsFree(s: State, m: Layout, n: nat, count: nat, validity: int, i: nat)
    requires Coherent(s, n, count, validity) && i < count && NowHeld(s.layout, m, i + Shift(n))
    ensures |s.index| < count
  {
    RoomWhileFree(s, n, count, validity, i);
  }

  /** All that refreshing a MAC changes. */
  lemma RefreshDone(s: State, t: State, n: nat, count: nat, validity: int, core: nat, k: Mac, now: int)
    requires Coherent(s, n, count, validity) && k in s.index && |t.cells| == |s.cells|
    requires var i := s.index[k];
             && IsLifted(s.layout, t.layout, i + Shift(n)) && SameHeld(s.layout, t.layout)
             && OnlyTime(s.cells, t.cells, i + Shift(n), now + validity)
             && ListsOk(t.cells, n, count, t.layout)
             && t.index == s.index && t.macs == s.macs && 0 <= i < |s.vals|
             && t.vals == s.vals[i := s.vals[i].(time := now)]
    ensures Coherent(t, n, count, validity) && Placed(s, t, n, core, k, now + validity)
    ensures k in Known(s) && Known(t) == Known(s)[k := Known(s)[k].(time := now)]
  {
    RefreshOk(s, t, n, count, validity, k, now);
    assert KeyOk(s, n, count, k);
    RefreshRenews(s, t, n, count, s.index[k] + Shift(n), now + validity);
  }

  /** All that learning a MAC changes. */
  lemma StoreOk(s: State, t: State, n: nat, count: nat, validity: int, k: Mac, i: nat, core: nat,
                dev: nat, now: int)
    requires Coherent(s, n, count, validity) && k !in s.index && i < count && core < n
    requires NowHeld(s.layout, t.layout, i + Shift(n)) && ListsOk(t.cells, n, count, t.layout)
    requires Appended(s.layout, t.layout, n, core, i + Shift(n))
    requires OnlyTime(s.cells, t.cells, i + Shift(n), now + validity)
    requires t.index == s.index[k := i] && t.macs == s.macs[i := k] && t.vals == s.vals[i := MacEntry(dev, now)]
    ensures Coherent(t, n, count, validity)
    ensures Known(t) == Known(s)[k := MacEntry(dev, now)] && |Known(s)| < count
    ensures Placed(s, t, n, core, k, now + validity)
  {
    LearnRenews(s, t, n, count, core, i + Shift(n), now + validity);
    LearnOk(s, t, n, count, validity, k, i, core, dev, now);
    LearnKnown(s, t, n, count, validity, k, i, MacEntry(dev, now));
    RoomWhileFree(s, n, count, validity, i);
    KnownSize(s, n, count, validity);
  }

  lemma FullTable(s: State, n: nat, count: nat, validity: int)
    requires Coherent(s, n, count, validity) && AllHeld(s.layout, n, count)
    ensures |Known(s)| == count
  {
    FullWhenAllHeld(s, n, count, validity);
    KnownSize(s, n, count, validity);
  }

  // ---- Expiration

  /** One run of the transaction: what it meets at each step, and whether its reads are still valid at
      the end. */
  datatype Attempt = Attempt(steps: seq<Contention>, valid: bool)

  function Step(a: Attempt, k: nat): Contention {
    if k < |a.steps| then a.steps[k] else CALM
  }

  /** What is left of a ring: it without the expired cells before its first one that has not expired. */
  ghost function Kept(c: seq<Cell>, s: seq<int>, now: int): (r: seq<int>)
    ensures forall x :: x in r ==> x in s
  {
    if s != [] && 0 <= s[0] < |c| && c[s[0]].time < now then Kept(c, s[1..], now) else s
  }

  /** The ring does not begin with an expired cell. */
  ghost predicate RingDone(c: seq<Cell>, s: seq<int>, now: int) {
    s == [] || (0 <= s[0] < |c| && c[s[0]].time >= now)
  }

  ghost predicate RingsDone(s: State, n: nat, upto: nat, now: int)
    requires HasLists(n, s.layout)
  {
    forall i: nat {:trigger Ring(i)} :: i < n && i < upto ==> RingDone(s.cells, s.layout.lists[Ring(i)], now)
  }

  lemma {:induction false} KeptSame(c: seq<Cell>, d: seq<Cell>, s: seq<int>, now: int)
    requires |d| == |c| && forall x :: x in s ==> 0 <= x < |c| && d[x].time == c[x].time
    ensures Kept(d, s, now) == Kept(c, s, now)
  {
    if s != [] {
      assert s[0] in s && forall x :: x in s[1..] ==> x in s;
      KeptSame(c, d, s[1..], now);
    }
  }

  lemma {:induction false} DroppedExpired(c: seq<Cell>, s: seq<int>, now: int, x: int)
    requires x in s && x !in Kept(c, s, now)
    ensures 0 <= x < |c| && c[x].time < now
  {
    if s[0] != x {
      DroppedExpired(c, s[1..], now, x);
    }
  }

  /** What is behind a cell that has not expired stays. */
  lemma {:induction false} BehindFreshStays(c: seq<Cell>, s: seq<int>, now: int, a: nat, b: nat)
    requires a <= b < |s| && 0 <= s[a] < |c| && c[s[a]].time >= now
    ensures s[b] in Kept(c, s, now)
  {
    if 0 <= s[0] < |c| && c[s[0]].time < now {
      BehindFreshStays(c, s[1..], now, a - 1, b - 1);
    }
  }

  /** The pass that has begun in `s0` will leave the same from `s`. */
  ghost predicate Passing(s0: State, s: State, n: nat, now: int) {
    && HasLists(n, s0.layout) && HasLists(n, s.layout) && s.macs == s0.macs && s.vals == s0.vals
    && forall i: nat {:trigger Ring(i)} :: i < n ==>
         Kept(s.cells, s.layout.lists[Ring(i)], now) == Kept(s0.cells, s0.layout.lists[Ring(i)], now)
  }

  /** All that one expiration does to a pass that has begun in `s0`. */
  lemma ForgetStep(s0: State, s: State, t: State, n: nat, count: nat, validity: int, core: nat, i: nat, now: int)
    requires Coherent(s, n, count, validity) && core < n && i < count
    requires s.layout.lists[Ring(core)] != [] && s.layout.lists[Ring(core)][0] == i + Shift(n)
    requires t.layout == Expired(s.layout, core) && NoLongerHeld(s.layout, t.layout, i + Shift(n))
    requires OnlyTime(s.cells, t.cells, i + Shift(n), MAX_TIME) && ListsOk(t.cells, n, count, t.layout)
    requires t.index == s.index - {s.macs[i]} && t.macs == s.macs && t.vals == s.vals
    requires s.cells[i + Shift(n)].time < now && RingsDone(s, n, core, now) && Passing(s0, s, n, now)
    ensures Coherent(t, n, count, validity) && RingsDone(t, n, core, now)
    ensures Passing(s0, t, n, now) && |t.index| < |s.index|
  {
    ForgetOk(s, t, n, count, validity, core, i);
    OneKeyLess(s.index, s.macs[i]);
    RingsAfterForget(s0, s, t, n, count, core, i + Shift(n), now);
  }

  lemma RingsAfterForget(s0: State, s: State, t: State, n: nat, count: nat, core: nat, x: int, now: int)
    requires ListsOk(s.cells, n, count, s.layout) && core < n && HasLists(n, t.layout)
    requires s.layout.lists[Ring(core)] != [] && s.layout.lists[Ring(core)][0] == x
    requires t.layout == Expired(s.layout, core) && OnlyTime(s.cells, t.cells, x, MAX_TIME) && s.cells[x].time < now
    requires RingsDone(s, n, core, now) && Passing(s0, s, n, now) && t.macs == s.macs && t.vals == s.vals
    ensures RingsDone(t, n, core, now) && Passing(s0, t, n, now)
  {
    forall r: nat | r < n
      ensures Kept(t.cells, t.layout.lists[Ring(r)], now) == Kept(s0.cells, s0.layout.lists[Ring(r)], now)
      ensures r < core ==> RingDone(t.cells, t.layout.lists[Ring(r)], now)
    {
      RingStep(s, t, n, count, core, x, now, r);
    }
  }

  lemma RingStep(s: State, t: State, n: nat, count: nat, core: nat, x: nat, now: int, r: nat)
    requires ListsOk(s.cells, n, count, s.layout) && core < n && r < n
    requires s.layout.lists[Ring(core)] != [] && s.layout.lists[Ring(core)][0] == x
    requires t.layout == Expired(s.layout, core) && OnlyTime(s.cells, t.cells, x, MAX_TIME) && s.cells[x].time < now
    ensures Ring(r) in t.layout.lists
    ensures Kept(t.cells, t.layout.lists[Ring(r)], now) == Kept(s.cells, s.layout.lists[Ring(r)], now)
    ensures r != core && RingDone(s.cells, s.layout.lists[Ring(r)], now) ==>
              RingDone(t.cells, t.layout.lists[Ring(r)], now)
  {
    var before, after := s.layout.lists[Ring(r)], t.layout.lists[Ring(r)];
    assert ListOk(s.cells, n, count, s.layout, Ring(r)) && ListOk(s.cells, n, count, s.layout, Ring(core));
    assert s.layout.lists[Ring(core)][0] in s.layout.lists[Ring(core)];
    assert after == if r == core then before[1..] else before;
    assert forall j :: 0 <= j < |after| ==> after[j] == before[if r == core then j + 1 else j];
    forall y | y in after ensures 0 <= y < |s.cells| && t.cells[y].time == s.cells[y].time {
      assert y in before;
    }
    KeptSame(s.cells, t.cells, after, now);
    assert after != [] ==> after[0] in after;
  }

  /** The cell is not removed. */
  ghost predicate Stays(s: State, n: nat, x: int, now: int) {
    && x in s.layout.home && s.layout.home[x] in s.layout.lists
    && x in Kept(s.cells, s.layout.lists[s.layout.home[x]], now)
  }

  /** What a pass leaves of the table. */
  ghost function Left(s: State, n: nat, now: int): map<Mac, MacEntry> {
    map k | k in s.index && 0 <= s.index[k] < |s.vals| && Stays(s, n, s.index[k] + Shift(n), now) :: s.vals[s.index[k]]
  }

  /** When no ring begins with an expired cell, that is left. */
  lemma PassLeaves(s0: State, s: State, n: nat, count: nat, validity: int, now: int)
    requires Coherent(s0, n, count, validity) && Coherent(s, n, count, validity)
    requires Passing(s0, s, n, now) && RingsDone(s, n, n, now)
    ensures Known(s) == Left(s0, n, now)
  {
    forall k | k in s.index ensures k in Left(s0, n, now) && s0.index[k] == s.index[k] {
      assert KeyOk(s, n, count, k);
      SameHome(s, s0, n, count, validity, now, s.index[k]);
      assert SlotOk(s0, n, validity, s.index[k]);
    }
    forall k | k in Left(s0, n, now) ensures k in s.index && s.index[k] == s0.index[k] {
      assert KeyOk(s0, n, count, k);
      SameHome(s0, s, n, count, validity, now, s0.index[k]);
      assert SlotOk(s, n, validity, s0.index[k]);
    }
    KnownKeys(s, n, count, validity);
  }

  /** Cells that stay from `s` are on the same ring in `t`, and stay from `t`. */
  lemma SameHome(s: State, t: State, n: nat, count: nat, validity: int, now: int, i: nat)
    requires Coherent(s, n, count, validity) && Coherent(t, n, count, validity) && i < count
    requires Held(s.layout, i + Shift(n)) && HasLists(n, s.layout) && HasLists(n, t.layout)
    requires forall r: nat {:trigger Ring(r)} :: r < n ==>
               Kept(s.cells, s.layout.lists[Ring(r)], now) == Kept(t.cells, t.layout.lists[Ring(r)], now)
    requires RingsDone(s, n, n, now) || Stays(s, n, i + Shift(n), now)
    ensures Held(t.layout, i + Shift(n)) && Stays(t, n, i + Shift(n), now)
  {
    var x := i + Shift(n);
    AllocatedByListInd(s.cells, n, count, s.layout, x);
    var r := s.layout.home[x].core;
    assert Ring(r) in s.layout.lists && IsList(n, Ring(r));
    assert x in Kept(s.cells, s.layout.lists[Ring(r)], now);
    assert ListOk(t.cells, n, count, t.layout, Ring(r));
  }

  // ---- What is left, against what is fresh

  /** Only expired entries are gone. */
  ghost predicate Trimmed(t: map<Mac, MacEntry>, t': map<Mac, MacEntry>, validity: int, now: int) {
    && (forall k :: k in t' ==> k in t && t'[k] == t[k])
    && (forall k :: k in t && k !in t' ==> t[k].time + validity < now)
  }

  lemma LeftIsTrimmed(s: State, n: nat, count: nat, validity: int, now: int)
    requires Coherent(s, n, count, validity)
    ensures Trimmed(Known(s), Left(s, n, now), validity, now)
  {
    forall k | k in Known(s) && k !in Left(s, n, now) ensures Known(s)[k].time + validity < now {
      assert KeyOk(s, n, count, k) && SlotOk(s, n, validity, s.index[k]);
      var x := s.index[k] + Shift(n);
      AllocatedByListInd(s.cells, n, count, s.layout, x);
      DroppedExpired(s.cells, s.layout.lists[s.layout.home[x]], now, x);
    }
  }

  /** On no ring is an expired cell behind one that has not expired. */
  ghost predicate NoneBehind(s: State, n: nat, now: int)
    requires HasLists(n, s.layout)
  {
    forall r: nat {:trigger Ring(r)} :: r < n ==> InFront(s.cells, s.layout.lists[Ring(r)], now)
  }

  ghost predicate InFront(c: seq<Cell>, s: seq<int>, now: int) {
    forall a, b :: 0 <= a < b < |s| && 0 <= s[a] < |c| && 0 <= s[b] < |c| && c[s[a]].time >= now ==> c[s[b]].time >= now
  }

  lemma {:induction false} KeptIsFresh(c: seq<Cell>, s: seq<int>, now: int, x: int)
    requires InFront(c, s, now) && x in Kept(c, s, now) && 0 <= x < |c|
    requires forall y :: y in s ==> 0 <= y < |c|
    ensures c[x].time >= now
  {
    assert s[0] in s;
    if c[s[0]].time < now {
      assert forall y :: y in s[1..] ==> y in s;
      KeptIsFresh(c, s[1..], now, x);
    } else {
      var b :| 0 <= b < |s| && s[b] == x;
    }
  }

  /** A pass leaves exactly the fresh entries if and only if no expired one is behind a fresh one. */
  lemma PassIsComplete(s: State, n: nat, count: nat, validity: int, now: int)
    requires Coherent(s, n, count, validity)
    ensures Left(s, n, now) == Fresh(Known(s), validity, now) <==> NoneBehind(s, n, now)
  {
    LeftIsTrimmed(s, n, count, validity, now);
    if NoneBehind(s, n, now) {
      forall k | k in Left(s, n, now) ensures Known(s)[k].time + validity >= now {
        assert KeyOk(s, n, count, k) && SlotOk(s, n, validity, s.index[k]);
        var x := s.index[k] + Shift(n);
        var a := s.layout.home[x];
        assert ListOk(s.cells, n, count, s.layout, a) && InFront(s.cells, s.layout.lists[Ring(a.core)], now);
        KeptIsFresh(s.cells, s.layout.lists[a], now, x);
      }
    } else {
      var r: nat :| r < n && !InFront(s.cells, s.layout.lists[Ring(r)], now);
      ExpiredBehindStays(s, n, count, validity, now, r);
    }
  }

  lemma ExpiredBehindStays(s: State, n: nat, count: nat, validity: int, now: int, r: nat)
    requires Coherent(s, n, count, validity) && r < n && !InFront(s.cells, s.layout.lists[Ring(r)], now)
    ensures exists k :: k in Left(s, n, now) && k in Known(s) && Known(s)[k].time + validity < now
  {
    var ring := s.layout.lists[Ring(r)];
    var a: nat, b: nat :| a < b < |ring| && 0 <= ring[a] < |s.cells| && 0 <= ring[b] < |s.cells|
                          && s.cells[ring[a]].time >= now && s.cells[ring[b]].time < now;
    BehindFreshStays(s.cells, ring, now, a, b);
    var k := EntryOfCell(s, n, count, validity, now, r, ring[b]);
  }

  lemma EntryOfCell(s: State, n: nat, count: nat, validity: int, now: int, r: nat, x: int) returns (k: Mac)
    requires Coherent(s, n, count, validity) && r < n && x in Kept(s.cells, s.layout.lists[Ring(r)], now)
    ensures 0 <= x < |s.cells| && k in Left(s, n, now) && k in Known(s)
    ensures Known(s)[k].time + validity == s.cells[x].time
  {
    assert ListOk(s.cells, n, count, s.layout, Ring(r));
    var i := x - Shift(n);
    assert SlotOk(s, n, validity, i);
    k := s.macs[i];
    assert Stays(s, n, s.index[k] + Shift(n), now);
  }

  /** That is so when every ring is sorted. */
  lemma SortedNoneBehind(s: State, n: nat, now: int, bounds: seq<int>)
    requires HasLists(n, s.layout) && |bounds| == n && Sorted(s.cells, n, s.layout, bounds)
    ensures NoneBehind(s, n, now)
  {
    forall r: nat | r < n ensures InFront(s.cells, s.layout.lists[Ring(r)], now) {
      var ring := s.layout.lists[Ring(r)];
      assert RingSorted(s.cells, ring, bounds[r]);
      forall a, b | 0 <= a < b < |ring| && 0 <= ring[a] < |s.cells| && s.cells[ring[a]].time >= now
        ensures 0 <= ring[b] < |s.cells| ==> s.cells[ring[b]].time >= now
      {
        assert InOrder(s.cells, ring, a, b);
      }
    }
  }

  ghost predicate SortedTo(s: State, n: nat, bounds: seq<int>) {
    HasLists(n, s.layout) && |bounds| == n && Sorted(s.cells, n, s.layout, bounds)
  }

  ghost predicate StillSorted(s: State, t: State, n: nat) {
    forall bounds :: SortedTo(s, n, bounds) ==> SortedTo(t, n, bounds)
  }

  /** What is left of a sorted ring is sorted. */
  lemma {:induction false} KeptIsSorted(c: seq<Cell>, d: seq<Cell>, s: seq<int>, now: int, bound: int)
    requires RingSorted(c, s, bound) && |d| == |c|
    requires forall x :: x in Kept(c, s, now) ==> 0 <= x < |c| && d[x].time == c[x].time
    ensures RingSorted(d, Kept(c, s, now), bound)
  {
    if s != [] && 0 <= s[0] < |c| && c[s[0]].time < now {
      assert RingSorted(c, s[1..], bound) by {
        forall i | 0 <= i < |s[1..]| ensures TimedBy(c, s[1..], bound, i) {
          assert TimedBy(c, s, bound, i + 1);
        }
        forall i, j | 0 <= i < j < |s[1..]| ensures InOrder(c, s[1..], i, j) {
          assert InOrder(c, s, i + 1, j + 1);
        }
      }
      KeptIsSorted(c, d, s[1..], now, bound);
    } else {
      assert Kept(c, s, now) == s;
      SameTimesSorted(c, d, s, bound);
    }
  }

  lemma SameTimesSorted(c: seq<Cell>, d: seq<Cell>, s: seq<int>, bound: int)
    requires RingSorted(c, s, bound) && |d| == |c|
    requires forall x :: x in s ==> 0 <= x < |c| && d[x].time == c[x].time
    ensures RingSorted(d, s, bound)
  {
    forall i | 0 <= i < |s| ensures TimedBy(d, s, bound, i) {
      assert TimedBy(c, s, bound, i);
    }
    forall i, j | 0 <= i < j < |s| ensures InOrder(d, s, i, j) {
      assert InOrder(c, s, i, j);
    }
  }

  /** Rings that are sorted when a pass begins are so when it is over. */
  lemma PassKeepsSorted(s0: State, s: State, n: nat, count: nat, validity: int, now: int)
    requires Coherent(s0, n, count, validity) && Coherent(s, n, count, validity) && |s.cells| == |s0.cells|
    requires Passing(s0, s, n, now) && RingsDone(s, n, n, now)
    ensures StillSorted(s0, s, n)
  {
    forall bounds, r: nat | SortedTo(s0, n, bounds) && r < n
      ensures RingSorted(s.cells, s.layout.lists[Ring(r)], bounds[r])
    {
      var ring := s.layout.lists[Ring(r)];
      assert Kept(s.cells, ring, now) == ring == Kept(s0.cells, s0.layout.lists[Ring(r)], now);
      forall x | x in ring ensures 0 <= x < |s0.cells| && s.cells[x].time == s0.cells[x].time {
        SameTime(s0, s, n, count, validity, r, x);
      }
      KeptIsSorted(s0.cells, s.cells, s0.layout.lists[Ring(r)], now, bounds[r]);
    }
  }

  lemma SameTime(s: State, t: State, n: nat, count: nat, validity: int, r: nat, x: int)
    requires Coherent(s, n, count, validity) && Coherent(t, n, count, validity) && s.vals == t.vals && r < n
    requires x in s.layout.lists[Ring(r)] && x in t.layout.lists[Ring(r)]
    ensures 0 <= x < |s.cells| && x < |t.cells| && s.cells[x].time == t.cells[x].time
  {
    assert ListOk(s.cells, n, count, s.layout, Ring(r)) && ListOk(t.cells, n, count, t.layout, Ring(r));
    assert SlotOk(s, n, validity, x - Shift(n)) && SlotOk(t, n, validity, x - Shift(n));
  }

  /** Some object is held at some step of the attempt. */
  predicate Contended(a: Attempt) {
    exists k :: 0 <= k < |a.steps| && a.steps[k] != CALM
  }

  class Bridge {
    const heap: NfosDoubleChainExp
    const dynMap: HashMap.NfosMap<Mac>
    const macs: array<Mac>
    const vals: array<MacEntry>

    ghost function View(): State
      reads this, heap, heap.cells, dynMap, dynMap.entries, macs, vals
      requires dynMap.Valid()
    {
      State(heap.cells[..], heap.layout, dynMap.Map(), macs[..], vals[..])
    }

    ghost predicate Shaped()
      reads this, heap, heap.cells, dynMap, dynMap.entries
    {
      && heap.Valid() && dynMap.Valid()
      && macs.Length == vals.Length == heap.size <= dynMap.entries.Length
    }

    ghost predicate Valid()
      reads this, heap, heap.cells, dynMap, dynMap.entries, macs, vals
    {
      Shaped() && Coherent(View(), heap.n, heap.Count(), heap.validity)
    }

    ghost function Table(): map<Mac, MacEntry>
      reads this, heap, heap.cells, dynMap, dynMap.entries, macs, vals
      requires dynMap.Valid()
    {
      Known(View())
    }

    /** `nf_init`, when memory suffices, for `n` cores. */
    constructor (hash: Mac -> nat, capacity: nat, validity: int, n: nat, blankMac: Mac)
      requires 0 < n <= capacity <= 0x8000_0000
      ensures Valid() && Table() == map[]
      ensures fresh(heap) && fresh(heap.cells) && fresh(dynMap) && fresh(dynMap.entries)
      ensures fresh(macs) && fresh(vals)
      ensures heap.n == n && heap.size == capacity && heap.validity == validity
    {
      heap := new NfosDoubleChainExp(capacity, validity, n);
      dynMap := new HashMap.NfosMap<Mac>(hash, capacity, blankMac);
      macs := new Mac[capacity](_ => blankMac);
      vals := new MacEntry[capacity](_ => MacEntry(0, MAX_TIME));
      new;
      EmptyIsCoherent(View(), n, heap.Count(), validity, capacity);
    }

    /** A transaction that aborts leaves everything as it was. */
    method Rollback(cells: seq<Cell>, ghost layout: Layout, entries: seq<HashMap.Entry<Mac>>,
                    ms: seq<Mac>, vs: seq<MacEntry>)
      requires heap.Valid() && |cells| == heap.cells.Length && ListsOk(cells, heap.n, heap.Count(), layout)
      requires |entries| == dynMap.entries.Length > 0 && HashMap.Inv(entries, dynMap.hash)
      requires |ms| == macs.Length && |vs| == vals.Length
      modifies heap.cells, heap`layout, dynMap.entries, macs, vals
      ensures heap.Valid() && dynMap.Valid()
      ensures heap.cells[..] == cells && heap.layout == layout && dynMap.entries[..] == entries
      ensures macs[..] == ms && vals[..] == vs
    {
      heap.Commit(cells, layout);
      dynMap.Install(entries);
      forall x | 0 <= x < macs.Length {
        macs[x] := ms[x];
      }
      forall x | 0 <= x < vals.Length {
        vals[x] := vs[x];
      }
    }

    /** The branch of `pkt_handler` for a known source that was last refreshed long ago. */
    method Refresh(ghost core: nat, src: Mac, i: nat, now: int, busy: Contention) returns (ok: bool)
      requires Valid() && src in dynMap.Map() && dynMap.Map()[src] == i
      modifies heap.cells, heap`layout, vals
      ensures heap.Valid() && (!ok ==> busy != CALM)
      ensures ok ==> Valid() && src in old(Table())
                     && Table() == old(Table())[src := old(Table())[src].(time := now)]
      ensures ok ==> Placed(old(View()), View(), heap.n, core, src, now + heap.validity)
    {
      ghost var s := View();
      assert KeyOk(s, heap.n, heap.Count(), src);
      ok := Renew(i, now, busy);
      if ok {
        RefreshDone(s, View(), heap.n, heap.Count(), heap.validity, core, src, now);
      }
    }

    /** Rejuvenate the index `i` and write its time. */
    method Renew(i: nat, now: int, busy: Contention) returns (ok: bool)
      requires Shaped() && i < heap.Count() && heap.IsAllocated(i)
      modifies heap.cells, heap`layout, vals
      ensures Shaped() && (!ok ==> busy != CALM)
      ensures ok ==> IsLifted(old(heap.layout), heap.layout, i + Shift(heap.n))
      ensures ok ==> SameHeld(old(heap.layout), heap.layout)
      ensures ok ==> OnlyTime(old(heap.cells[..]), heap.cells[..], i + Shift(heap.n), now + heap.validity)
      ensures ok ==> vals[..] == old(vals[..])[i := old(vals[i]).(time := now)]
    {
      var r, locks := heap.RejuvenateIndex(i, now, busy.cells);
      if r.Abort? || i in busy.vals {
        return false;
      }
      vals[i] := vals[i].(time := now);
      ok := true;
    }

    /** The branch of `pkt_handler` for an unknown source. */
    method Learn(core: nat, src: Mac, dev: nat, now: int, busy: Contention) returns (r: Outcome)
      requires Valid() && core < heap.n && src !in dynMap.Map()
      modifies heap.cells, heap`layout, dynMap.entries, macs, vals
      ensures heap.Valid() && (r.Abort? ==> busy != CALM)
      ensures r.Ok? ==> Valid() && |old(Table())| < heap.Count()
                        && Table() == old(Table())[src := MacEntry(dev, now)]
      ensures r.Ok? ==> Placed(old(View()), View(), heap.n, core, src, now + heap.validity)
      ensures r.Nothing? ==> Valid() && View() == old(View()) && |Table()| == heap.Count()
    {
      ghost var s := View();
      var a, locks := heap.AllocateNewIndex(core, now, busy.cells);
      assert View() == s.(cells := heap.cells[..], layout := heap.layout);
      if a.Nothing? {
        FullTable(s, heap.n, heap.Count(), heap.validity);
        return Nothing;
      }
      if a.Abort? || a.index in busy.macs || a.index in busy.vals {
        return Abort;
      }
      var ok := Store(s, a.index, core, src, dev, now, busy);
      r := if ok then a else Abort;
    }

    /** Write the vectors and the map for the newly allocated index `i`. */
    method Store(ghost s: State, i: nat, core: nat, src: Mac, dev: nat, now: int, busy: Contention)
      returns (ok: bool)
      requires Shaped() && core < heap.n && i < heap.Count()
      requires Coherent(s, heap.n, heap.Count(), heap.validity)
      requires src !in s.index
      requires View() == s.(cells := heap.cells[..], layout := heap.layout)
      requires NowHeld(s.layout, heap.layout, i + Shift(heap.n))
      requires Appended(s.layout, heap.layout, heap.n, core, i + Shift(heap.n))
      requires OnlyTime(s.cells, heap.cells[..], i + Shift(heap.n), now + heap.validity)
      modifies dynMap.entries, macs, vals
      ensures heap.Valid() && (!ok ==> busy != CALM)
      ensures ok ==> Valid() && Table() == Known(s)[src := MacEntry(dev, now)]
      ensures ok ==> |Known(s)| < heap.Count() && Placed(s, View(), heap.n, core, src, now + heap.validity)
    {
      ok := EnterMac(s, i, src, dev, now, busy);
      if ok {
        ghost var t := View();
        assert t.cells == heap.cells[..] && t.layout == heap.layout && t.index == s.index[src := i];
        StoreOk(s, t, heap.n, heap.Count(), heap.validity, src, i, core, dev, now);
      }
    }

    /** The writes themselves. */
    method EnterMac(ghost s: State, i: nat, src: Mac, dev: nat, now: int, busy: Contention) returns (ok: bool)
      requires Shaped() && i < heap.Count() && Coherent(s, heap.n, heap.Count(), heap.validity) && src !in s.index
      requires View() == s.(cells := heap.cells[..], layout := heap.layout)
      requires NowHeld(s.layout, heap.layout, i + Shift(heap.n))
      modifies dynMap.entries, macs, vals
      ensures Shaped() && (!ok ==> busy != CALM)
      ensures ok ==> View() == State(heap.cells[..], heap.layout, s.index[src := i], s.macs[i := src],
                                     s.vals[i := MacEntry(dev, now)])
    {
      NewIndexIsFree(s, heap.layout, heap.n, heap.Count(), heap.validity, i);
      macs[i] := src;
      vals[i] := MacEntry(dev, now);
      var p, entries := dynMap.Put(src, i, busy.entries);
      ok := !p.Abort?;
    }

    /** The first half of `pkt_handler`. */
    method LearnSource(core: nat, src: Mac, dev: nat, now: int, busy: Contention) returns (r: Outcome)
      requires Valid() && core < heap.n
      modifies heap.cells, heap`layout, dynMap.entries, macs, vals
      ensures heap.Valid() && (r.Abort? ==> busy != CALM)
      ensures !r.Abort? ==> Valid() && (r.Ok? <==> src in Table())
      ensures !r.Abort? ==> Handled(old(View()), View(), heap.n, heap.Count(), heap.validity, core, src, dev, now)
    {
      var present, i := Find(src);
      if present {
        r := RefreshOld(core, src, dev, i, now, busy);
      } else {
        r := LearnNew(core, src, dev, now, busy);
      }
    }

    method Find(mac: Mac) returns (present: bool, i: int)
      requires Valid()
      ensures present <==> mac in Table()
      ensures present <==> mac in dynMap.Map()
      ensures present ==> 0 <= i == dynMap.Map()[mac]
    {
      KnownKeys(View(), heap.n, heap.Count(), heap.validity);
      present, i := dynMap.Get(mac);
      assert present ==> KeyOk(View(), heap.n, heap.Count(), mac);
    }

    /** The branch of `pkt_handler` for an unknown source, against the table. */
    method LearnNew(core: nat, src: Mac, dev: nat, now: int, busy: Contention) returns (r: Outcome)
      requires Valid() && core < heap.n && src !in dynMap.Map() && src !in Table()
      modifies heap.cells, heap`layout, dynMap.entries, macs, vals
      ensures heap.Valid() && (r.Abort? ==> busy != CALM)
      ensures !r.Abort? ==> Valid() && (r.Ok? <==> src in Table())
      ensures !r.Abort? ==> Handled(old(View()), View(), heap.n, heap.Count(), heap.validity, core, src, dev, now)
    {
      r := Learn(core, src, dev, now, busy);
    }

    /** The branch of `pkt_handler` for a known source. */
    method RefreshOld(ghost core: nat, src: Mac, ghost dev: nat, i: nat, now: int, busy: Contention)
      returns (r: Outcome)
      requires Valid() && src in dynMap.Map() && dynMap.Map()[src] == i
      modifies heap.cells, heap`layout, vals
      ensures heap.Valid() && !r.Nothing? && (r.Abort? ==> busy != CALM)
      ensures r.Ok? ==> Valid() && src in Table()
      ensures r.Ok? ==> Handled(old(View()), View(), heap.n, heap.Count(), heap.validity, core, src, dev, now)
    {
      ghost var s := View();
      assert KeyOk(s, heap.n, heap.Count(), src);
      if now <= vals[i].time + REFRESH_INTERVAL {
        return Ok(i);
      }
      var ok := Refresh(core, src, i, now, busy);
      r := if ok then Ok(i) else Abort;
    }

    /** `pkt_handler`. */
    method PktHandler(core: nat, src: Mac, dev: nat, dst: Mac, now: int, busy: Contention) returns (r: Verdict)
      requires Valid() && core < heap.n
      modifies heap.cells, heap`layout, dynMap.entries, macs, vals
      ensures Valid()
      ensures r.Aborted? ==> busy != CALM && View() == old(View())
      ensures !r.Aborted? ==> Handled(old(View()), View(), heap.n, heap.Count(), heap.validity, core, src, dev, now)
      ensures !r.Aborted? ==> Table() == Learned(old(Table()), heap.Count(), src, dev, now)
      ensures !r.Aborted? ==>
                r == if src in Table() then Delivery(Table(), dst) else Dropped
    {
      ghost var layout := heap.layout;
      var cells, entries, ms, vs := heap.cells[..], dynMap.entries[..], macs[..], vals[..];
      var a := LearnSource(core, src, dev, now, busy);
      if a.Abort? {
        Rollback(cells, layout, entries, ms, vs);
        return Aborted;
      }
      if a.Nothing? {
        return Dropped;
      }
      r := Forward(dst);
    }

    /** The second half of `pkt_handler`. */
    method Forward(dst: Mac) returns (r: Verdict)
      requires Valid()
      ensures r == Delivery(Table(), dst)
    {
      KnownKeys(View(), heap.n, heap.Count(), heap.validity);
      var found, i := dynMap.Get(dst);
      if found {
        assert KeyOk(View(), heap.n, heap.Count(), dst);
        return Sent(vals[i].dev);
      }
      r := Flooded;
    }

    /** One iteration of the loop of `exp_mac`.  The pass has begun in `s0`. */
    method ExpireStep(ghost s0: State, now: int, busy: Contention) returns (ok: bool, done: bool)
      requires Valid() && Passing(s0, View(), heap.n, now)
      requires RingsDone(View(), heap.n, heap.currFreeList, now)
      modifies heap.cells, heap`layout, heap`currFreeList, dynMap.entries
      ensures heap.Valid() && (!ok ==> busy != CALM)
      ensures ok ==> Valid() && Passing(s0, View(), heap.n, now)
      ensures ok ==> RingsDone(View(), heap.n, if done then heap.n else heap.currFreeList, now)
      ensures ok ==>
                || done
                || |dynMap.Map()| < |old(dynMap.Map())|
                || (dynMap.Map() == old(dynMap.Map()) && heap.currFreeList > old(heap.currFreeList))
    {
      ghost var s, core := View(), heap.currFreeList;
      var r, locks;
      r, done, locks := heap.ExpireOneIndex(now, busy.cells);
      assert View() == s.(cells := heap.cells[..], layout := heap.layout);
      if r.Abort? {
        return false, done;
      }
      if r.Nothing? {
        return true, done;
      }
      ok := Forget(s0, s, core, r.index, now, busy);
    }

    /** Erase the MAC of the index `i`, which has just expired: it is always there. */
    method Forget(ghost s0: State, ghost s: State, ghost core: nat, i: nat, ghost now: int,
                  busy: Contention)
      returns (ok: bool)
      requires Shaped() && core < heap.n && i < heap.Count()
      requires Coherent(s, heap.n, heap.Count(), heap.validity)
      requires View() == s.(cells := heap.cells[..], layout := heap.layout)
      requires s.layout.lists[Ring(core)] != [] && s.layout.lists[Ring(core)][0] == i + Shift(heap.n)
      requires heap.layout == Expired(s.layout, core) && NoLongerHeld(s.layout, heap.layout, i + Shift(heap.n))
      requires OnlyTime(s.cells, heap.cells[..], i + Shift(heap.n), MAX_TIME)
      requires s.cells[i + Shift(heap.n)].time < now && RingsDone(s, heap.n, core, now) && Passing(s0, s, heap.n, now)
      modifies dynMap.entries
      ensures heap.Valid() && (!ok ==> busy != CALM)
      ensures ok ==> Valid() && Passing(s0, View(), heap.n, now) && |dynMap.Map()| < |s.index|
      ensures ok ==> RingsDone(View(), heap.n, core, now)
    {
      ok := EraseMac(s, i, busy);
      if !ok {
        return;
      }
      ForgetStep(s0, s, View(), heap.n, heap.Count(), heap.validity, core, i, now);
    }

    /** The erasure itself. */
    method EraseMac(ghost s: State, i: nat, busy: Contention) returns (ok: bool)
      requires Shaped() && i < heap.Count() && Coherent(s, heap.n, heap.Count(), heap.validity)
      requires View() == s.(cells := heap.cells[..], layout := heap.layout) && Held(s.layout, i + Shift(heap.n))
      modifies dynMap.entries
      ensures Shaped() && (!ok ==> busy != CALM)
      ensures ok ==> View() == s.(cells := heap.cells[..], layout := heap.layout, index := s.index - {s.macs[i]})
    {
      assert SlotOk(s, heap.n, heap.validity, i);
      var r, entries := dynMap.Erase(macs[i], busy.entries);
      ok := !r.Abort?;
    }

    /** The loop of `exp_mac`, from the reset of the current list up to the end of the transaction. */
    method ExpireAll(now: int, a: Attempt) returns (ok: bool)
      requires Valid()
      modifies heap.cells, heap`layout, heap`currFreeList, dynMap.entries
      ensures heap.Valid() && (!ok ==> Contended(a))
      ensures ok ==> Valid() && Table() == Left(old(View()), heap.n, now) && StillSorted(old(View()), View(), heap.n)
    {
      ghost var s0 := View();
      heap.ResetCurrFreeList();
      var done, k := false, 0;
      while !done
        invariant Valid() && Passing(s0, View(), heap.n, now)
        invariant RingsDone(View(), heap.n, if done then heap.n else heap.currFreeList, now)
        decreases !done, |dynMap.Map()|, heap.n - heap.currFreeList
      {
        ok, done := ExpireStep(s0, now, Step(a, k));
        if !ok {
          assert k < |a.steps| && a.steps[k] != CALM;
          return;
        }
        k := k + 1;
      }
      PassLeaves(s0, View(), heap.n, heap.Count(), heap.validity, now);
      PassKeepsSorted(s0, View(), heap.n, heap.Count(), heap.validity, now);
      ok := true;
    }

    /** The attempts of `exp_mac`. */
    method TryPass(now: int, attempts: seq<Attempt>) returns (unlocks: seq<bool>, ghost first: nat)
      requires Valid()
      modifies heap.cells, heap`layout, heap`currFreeList, dynMap.entries, macs, vals
      ensures Valid() && unlocks != [] && unlocks[|unlocks| - 1]
      ensures Table() == if unlocks[0] then Left(old(View()), heap.n, now) else old(Table())
      ensures !unlocks[0] ==> View() == old(View())
      ensures StillSorted(old(View()), View(), heap.n)
      ensures first <= |attempts| && forall j :: 0 <= j < first ==> Contended(attempts[j])
      ensures forall j :: 0 <= j < |unlocks| ==> unlocks[j] == (first + j < |attempts| ==> attempts[first + j].valid)
    {
      ghost var layout := heap.layout;
      var cells, entries, ms, vs := heap.cells[..], dynMap.entries[..], macs[..], vals[..];
      unlocks, first := [], 0;
      var expirationDone := false;
      var k := 0;
      while true
        invariant 0 <= k <= |attempts| && Valid() && View() == old(View())
        invariant dynMap.entries[..] == entries
        invariant expirationDone <==> unlocks != []
        invariant unlocks != [] ==> !unlocks[0]
        invariant first == k - |unlocks| && forall j :: 0 <= j < first ==> Contended(attempts[j])
        invariant forall j :: 0 <= j < |unlocks| ==> unlocks[j] == attempts[first + j].valid
        decreases |attempts| - k
      {
        var a := if k < |attempts| then attempts[k] else Attempt([], true);
        var ok := true;
        if !expirationDone {
          ok := ExpireAll(now, a);
          expirationDone := ok;
        } else {
          heap.ResetCurrFreeList();
        }
        if ok {
          unlocks := unlocks + [a.valid];
          if a.valid {
            return;
          }
        }
        Rollback(cells, layout, entries, ms, vs);
        first := if ok then first else first + 1;
        k := k + 1;
      }
    }

    /** `exp_mac`, which meets the given attempts and then no contention.  `unlocks` lists the results
        of ending the transaction; `first` is the first attempt that gets that far, because none of the
        objects that it locks is held.

        The flag `expiration_done` survives a failed end of the transaction, so the retry that follows
        does nothing: the pass takes effect exactly when the first end of the transaction succeeds. */
    method ExpMac(now: int, attempts: seq<Attempt>) returns (unlocks: seq<bool>, ghost first: nat)
      requires Valid()
      modifies heap.cells, heap`layout, heap`currFreeList, dynMap.entries, macs, vals
      ensures Valid() && unlocks != [] && unlocks[|unlocks| - 1]
      ensures Table() == if unlocks[0] then Left(old(View()), heap.n, now) else old(Table())
      ensures unlocks[0] ==> Trimmed(old(Table()), Table(), heap.validity, now)
      ensures unlocks[0] ==>
                (Table() == Fresh(old(Table()), heap.validity, now) <==> NoneBehind(old(View()), heap.n, now))
      ensures !unlocks[0] ==> View() == old(View())
      ensures StillSorted(old(View()), View(), heap.n)
      ensures first <= |attempts| && forall j :: 0 <= j < first ==> Contended(attempts[j])
      ensures forall j :: 0 <= j < |unlocks| ==> unlocks[j] == (first + j < |attempts| ==> attempts[first + j].valid)
    {
      ghost var s := View();
      LeftIsTrimmed(s, heap.n, heap.Count(), heap.validity, now);
      PassIsComplete(s, heap.n, heap.Count(), heap.validity, now);
      unlocks, first := TryPass(now, attempts);
    }
  }

  /** A pass whose first end of transaction fails leaves an expired MAC in the table. */
  method FailedEndKeepsExpired(hash: Mac -> nat) returns (b: Bridge)
    ensures b.Valid() && 5 in b.Table() && b.Table()[5].time + b.heap.validity < 100
  {
    b := new Bridge(hash, 1, 10, 1, 0);
    UsableIsAll(1, 1);
    var r := b.PktHandler(0, 5, 3, 7, 20, CALM);
    assert b.Table() == map[5 := MacEntry(3, 20)];
    FailedEnd(b, 100);
  }

  /** A pass without contention whose first end of transaction fails changes nothing. */
  method FailedEnd(b: Bridge, now: int)
    requires b.Valid()
    modifies b.heap.cells, b.heap`layout, b.heap`currFreeList, b.dynMap.entries, b.macs, b.vals
    ensures b.Valid() && b.View() == old(b.View())
  {
    var attempts := [Attempt([], false)];
    assert !Contended(attempts[0]);
    var unlocks;
    ghost var first;
    unlocks, first := b.ExpMac(now, attempts);
    assert !unlocks[0];
  }

  lemma EmptyIsCoherent(s: State, n: nat, count: nat, validity: int, size: nat)
    requires ListsOk(s.cells, n, count, s.layout) && count <= size == |s.macs| == |s.vals|
    requires s.index == map[] && forall a :: a in s.layout.lists && a.Ring? ==> s.layout.lists[a] == []
    ensures Coherent(s, n, count, validity)
  {
    forall i: nat | i < count ensures SlotOk(s, n, validity, i) {
      if Held(s.layout, i + Shift(n)) {
        AllocatedByListInd(s.cells, n, count, s.layout, i + Shift(n));
      }
    }
  }
}
