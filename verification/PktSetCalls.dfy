/** What each call of the packet set manager does, seen by its core: a step of three things, what the core is doing, its
    log and the packet sets of its partition. */
module PktSetCalls {
  import opened CellLists
  import opened Counting
  import opened PktSetManager
  import opened PktSetSteps
  import CM = ConcurrentMap
  import E = PktSetExpiry
  import P = PktSetProtocol

  // ---- Room

  ghost predicate Matches<I>(m: map<I, int>, r: seq<int>) {
    && Distinct(r) && (forall id :: id in m ==> m[id] in r)
    && (forall x :: x in r ==> x in m.Values)
    && forall x, y :: x in m && y in m && m[x] == m[y] ==> x == y
  }

  lemma {:induction false} InjectiveSize<I>(m: map<I, int>)
    requires forall x, y :: x in m && y in m && m[x] == m[y] ==> x == y
    ensures |m.Values| == |m|
    decreases |m|
  {
    if id :| id in m {
      var m' := m - {id};
      assert m.Keys == m'.Keys + {id} && |m.Keys| == |m| && |m'.Keys| == |m'|;
      InjectiveSize(m');
      assert m.Values == m'.Values + {m[id]};
    }
  }

  lemma MatchesSize<I>(m: map<I, int>, r: seq<int>)
    requires Matches(m, r)
    ensures |m| == |r|
  {
    InjectiveSize(m);
    DistinctSize(r);
    assert m.Values == set x | x in r;
  }

  function Indexes(ring: seq<int>, n: nat): (r: seq<int>)
    ensures |r| == |ring| && forall j :: 0 <= j < |r| ==> r[j] == ring[j] - Shift(n)
  {
    seq(|ring|, j requires 0 <= j < |ring| => ring[j] - Shift(n))
  }

  lemma ContentsMatch<I, S>(s: State<I, S>, n: nat, count: nat, clocks: seq<int>, p: nat)
    requires Coherent(s, n, count, clocks) && p < n
    ensures Matches(CM.Contents(s.table, s.chains, p), Indexes(s.layout.lists[Ring(p)], n))
  {
    var m, ring := CM.Contents(s.table, s.chains, p), s.layout.lists[Ring(p)];
    var r := Indexes(ring, n);
    assert ListOk(s.cells, n, count, s.layout, Ring(p));
    forall id | id in m ensures m[id] in r && s.table.ids[m[id]] == id {
      EntryOf(s, n, count, clocks, p, id);
      var j :| 0 <= j < |ring| && ring[j] == m[id] + Shift(n);
      assert r[j] == m[id];
    }
    forall x | x in r ensures x in m.Values {
      var j :| 0 <= j < |r| && r[j] == x;
      assert ring[j] in ring;
      StoredExactlyWhenOnRing(s, n, count, clocks, p, s.table.ids[x], x);
    }
  }

  /** A partition has as many packet sets as its ring has indexes. */
  lemma AsManyAsOnRing<I, S>(s: State<I, S>, n: nat, count: nat, clocks: seq<int>, p: nat)
    requires Coherent(s, n, count, clocks) && p < n
    ensures |Sets(s, n, p)| == |s.layout.lists[Ring(p)]|
  {
    var m := CM.Contents(s.table, s.chains, p);
    ContentsMatch(s, n, count, clocks, p);
    MatchesSize(m, Indexes(s.layout.lists[Ring(p)], n));
    forall id ensures id in Sets(s, n, p) <==> id in m {
      EntryOf(s, n, count, clocks, p, id);
    }
    assert Sets(s, n, p).Keys == m.Keys;
    assert |Sets(s, n, p).Keys| == |Sets(s, n, p)| && |m.Keys| == |m|;
  }

  /** A core that runs a handler has a free index exactly when its packet sets do not take up its share. */
  lemma FreeWhileRoom<I, S>(s: State<I, S>, flags: seq<bool>, phases: seq<Phase<I>>, n: nat, count: nat,
                            clocks: seq<int>, shares: seq<seq<int>>, c: nat)
    requires Linked(s, flags, phases, n, count, clocks, shares) && c < n && phases[c].Handling?
    ensures c < |shares| && Free(c) in s.layout.lists
    ensures s.layout.lists[Free(c)] != [] <==> |Sets(s, n, c)| < |shares[c]|
  {
    AsManyAsOnRing(s, n, count, clocks, c);
    var me := Abstract(s.layout, flags, phases).cores[c];
    assert P.CoreOk(me, shares[c]);
    assert |multiset(me.free) + multiset(me.ring)| == |me.free| + |me.ring|;
    assert |multiset(shares[c])| == |shares[c]|;
  }

  // ---- Calls

  datatype CoreView<I, S> = CoreView(phase: Phase<I>, log: LogEntry<S>, sets: map<I, Entry<S>>)

  /** A packet of packet set `id`: a known one is used, which is recorded unless it is the partition's only one; the
      handler of an unknown one begins with an empty log. */
  ghost predicate PacketOk<I, S>(v: CoreView<I, S>, v': CoreView<I, S>, id: I, time: int) {
    if id in v.sets then
      && v'.phase.Between? && v'.log == v.log && v'.sets.Keys == v.sets.Keys
      && forall k {:trigger v.sets[k]} :: k in v.sets ==>
           v'.sets[k] == Entry(v.sets[k].state, if k == id && v.sets.Keys != {id} then time else v.sets[k].time)
    else v'.phase == Handling(id) && !v'.log.addPktSet && v'.sets == v.sets
  }

  /** The partition is left with the packet sets that have a recorded use since `last`. */
  ghost predicate CheckOk<I, S>(v: CoreView<I, S>, v': CoreView<I, S>, last: int) {
    && v'.phase.Between? && v'.log == v.log
    && (forall k :: k in v.sets && v.sets[k].time >= last ==> k in v'.sets)
    && forall k :: k in v'.sets ==> k in v.sets && v.sets[k].time >= last && v'.sets[k] == v.sets[k]
  }

  /** What the handler of packet set `id` asks to add is logged, if there is room, in place of what it has logged
      before; an aborted handler begins again with an empty log. */
  ghost predicate HandlerOk<I, S>(v: CoreView<I, S>, v': CoreView<I, S>, id: I, call: Call<I, S>, room: nat) {
    match call
    case Add(state) =>
      v' == if |v.sets| < room then v.(log := LogEntry(true, state)) else v
    case Restart => !v'.log.addPktSet && v' == v.(log := v'.log)
    case Finish => v' == v.(phase := Committing(id))
    case _ => v' == v
  }

  /** What has been logged is registered, with the time of the commit. */
  ghost predicate CommitOk<I, S>(v: CoreView<I, S>, v': CoreView<I, S>, id: I, time: int) {
    && v'.phase.Between? && v'.log == v.log && id !in v.sets
    && v'.sets == if v.log.addPktSet then v.sets[id := Entry(v.log.state, time)] else v.sets
  }

  ghost predicate CallOk<I, S>(v: CoreView<I, S>, v': CoreView<I, S>, call: Call<I, S>, time: int, validity: int,
                               room: nat) {
    match v.phase
    case Between =>
      if call.Packet? then PacketOk(v, v', call.id, time)
      else if call.CheckExpired? then CheckOk(v, v', time - validity)
      else v' == v
    case Handling(id) => HandlerOk(v, v', id, call, room)
    case Committing(id) => if call.Commit? then CommitOk(v, v', id, time) else v' == v
  }

  lemma CallIsOk<I, S>(s: State<I, S>, t: State<I, S>, n: nat, c: nat, f: Phase<I>, f': Phase<I>, call: Call<I, S>,
                       log: LogEntry<S>, log': LogEntry<S>, time: int, validity: int, hasFree: bool, room: nat)
    requires Performed(s, t, n, c, f, f', call, log, time, validity) && LogAfter(f, f', call, hasFree, log, log')
    requires f.Handling? ==> (hasFree <==> |Sets(s, n, c)| < room)
    ensures CM.UniqueKeys(s.table, s.chains) && CM.UniqueKeys(t.table, t.chains)
    ensures CallOk(CoreView(f, log, Sets(s, n, c)), CoreView(f', log', Sets(t, n, c)), call, time, validity, room)
    ensures forall q: nat {:trigger Sets(t, n, q)} :: q != c ==> Sets(t, n, q) == Sets(s, n, q)
  {
    PerformedChanges(s, t, n, c, f, f', call, log, time, validity);
    assert Sets(t, n, c) == TableAfter(Sets(s, n, c), Told(f, call, log, time), validity);
  }

  // ---- Runs

  ghost function ViewsIn<I, S>(s: State<I, S>, log: seq<LogEntry<S>>, phases: seq<Phase<I>>): (r: seq<CoreView<I, S>>)
    requires CM.UniqueKeys(s.table, s.chains) && |log| == |phases|
    ensures |r| == |phases|
  {
    seq(|phases|, c requires 0 <= c < |phases| => CoreView(phases[c], log[c], Sets(s, |phases|, c)))
  }

  /** Event `k` is a call of its core, and no other core's affair. */
  ghost predicate CallAt<I, S>(events: seq<Event<I, S>>, worlds: seq<seq<CoreView<I, S>>>, k: nat, validity: int,
                               shares: seq<seq<int>>) {
    && k < |events| && k + 1 < |worlds|
    && var c := events[k].core;
       && c < |worlds[k]| == |worlds[k + 1]| && c < |shares|
       && worlds[k + 1] == worlds[k][c := worlds[k + 1][c]]
       && CallOk(worlds[k][c], worlds[k + 1][c], events[k].call, events[k].time, validity, |shares[c]|)
  }

  ghost predicate CallsOk<I, S>(events: seq<Event<I, S>>, worlds: seq<seq<CoreView<I, S>>>, upto: nat, validity: int,
                                shares: seq<seq<int>>) {
    && |worlds| == upto + 1
    && forall k: nat {:trigger CallAt(events, worlds, k, validity, shares)} ::
         k < upto ==> CallAt(events, worlds, k, validity, shares)
  }

  lemma OneMoreCall<I, S>(events: seq<Event<I, S>>, worlds: seq<seq<CoreView<I, S>>>, k: nat, validity: int,
                          shares: seq<seq<int>>, world: seq<CoreView<I, S>>)
    requires CallsOk(events, worlds, k, validity, shares) && k < |events|
    requires var c := events[k].core;
             && c < |worlds[k]| == |world| && c < |shares| && world == worlds[k][c := world[c]]
             && CallOk(worlds[k][c], world[c], events[k].call, events[k].time, validity, |shares[c]|)
    ensures CallsOk(events, worlds + [world], k + 1, validity, shares)
  {
    forall i: nat | i < k + 1 ensures CallAt(events, worlds + [world], i, validity, shares) {
      assert i < k ==> CallAt(events, worlds, i, validity, shares);
    }
  }

  lemma ViewsChange<I, S>(s: State<I, S>, t: State<I, S>, log: seq<LogEntry<S>>, log': seq<LogEntry<S>>,
                          phases: seq<Phase<I>>, phases': seq<Phase<I>>, c: nat)
    requires CM.UniqueKeys(s.table, s.chains) && CM.UniqueKeys(t.table, t.chains)
    requires |log| == |phases| == |log'| == |phases'| && c < |phases|
    requires phases' == phases[c := phases'[c]] && log' == log[c := log'[c]]
    requires forall q: nat {:trigger Sets(t, |phases|, q)} :: q != c ==> Sets(t, |phases|, q) == Sets(s, |phases|, q)
    ensures ViewsIn(t, log', phases') == ViewsIn(s, log, phases)[c := ViewsIn(t, log', phases')[c]]
  {
    forall q: nat | q < |phases| && q != c ensures ViewsIn(t, log', phases')[q] == ViewsIn(s, log, phases)[q] {
      assert Sets(t, |phases|, q) == Sets(s, |phases|, q);
    }
  }

  /** One call of core `c`. */
  method OneCall<I(==), S>(m: PktSetManager<I, S>, phases: seq<Phase<I>>, c: nat, call: Call<I, S>, time: int,
                           ghost shares: seq<seq<int>>)
    returns (phases': seq<Phase<I>>)
    requires Running(m, phases, shares) && c < m.chain.n && m.clocks[c] <= time
    modifies m.chain.cells, m.chain`layout, m.idToIndex`chains, m.idToIndex.buckets, m.idToIndex.next, m.idToIndex.ids
    modifies m.states, m`clocks, m.log
    ensures |phases'| == |phases| && Running(m, phases', shares) && c < |shares|
    ensures m.clocks[c] <= time && m.clocks == old(m.clocks)[c := m.clocks[c]]
    ensures var v, v' := old(ViewsIn(m.View(), m.log[..], phases)), ViewsIn(m.View(), m.log[..], phases');
            v' == v[c := v'[c]] && CallOk(v[c], v'[c], call, time, m.validity, |shares[c]|)
  {
    ghost var s, flags, log, clocks := m.View(), FlagsOf(m.log[..]), m.log[..], m.clocks;
    ghost var n, count := m.chain.n, m.chain.Count();
    if phases[c].Handling? {
      FreeWhileRoom(s, flags, phases, n, count, clocks, shares, c);
    }
    ghost var schedule;
    phases', schedule := Perform(m, phases, c, call, time, shares);
    CallIsOk(s, m.View(), n, c, phases[c], phases'[c], call, log[c], m.log[c], time, m.validity,
             s.layout.lists[Free(c)] != [], |shares[c]|);
    ViewsChange(s, m.View(), log, m.log[..], phases, phases', c);
  }

  /** Whatever the cores do, in whatever interleaving of calls, as long as the clock of no core goes backwards: each
      call does to its core what `CallOk` says, and nothing to the other cores. */
  method Serve<I(==), S>(m: PktSetManager<I, S>, phases: seq<Phase<I>>, events: seq<Event<I, S>>,
                         ghost shares: seq<seq<int>>)
    returns (phases': seq<Phase<I>>, ghost worlds: seq<seq<CoreView<I, S>>>)
    requires Running(m, phases, shares) && InOrder(events, m.chain.n) && NotBehind(events, 0, m.clocks)
    modifies m.chain.cells, m.chain`layout, m.idToIndex`chains, m.idToIndex.buckets, m.idToIndex.next, m.idToIndex.ids
    modifies m.states, m`clocks, m.log
    ensures |phases'| == |phases| && Running(m, phases', shares)
    ensures CallsOk(events, worlds, |events|, m.validity, shares)
    ensures worlds[0] == old(ViewsIn(m.View(), m.log[..], phases))
    ensures worlds[|events|] == ViewsIn(m.View(), m.log[..], phases')
  {
    phases', worlds := phases, [ViewsIn(m.View(), m.log[..], phases)];
    for i := 0 to |events|
      invariant |phases'| == |phases| && Running(m, phases', shares) && NotBehind(events, i, m.clocks)
      invariant CallsOk(events, worlds, i, m.validity, shares)
      invariant worlds[0] == old(ViewsIn(m.View(), m.log[..], phases))
      invariant worlds[i] == ViewsIn(m.View(), m.log[..], phases')
    {
      var c := events[i].core;
      ghost var clocks := m.clocks;
      phases' := OneCall(m, phases', c, events[i].call, events[i].time, shares);
      StillNotBehind(events, |phases|, i, clocks, m.clocks[c]);
      OneMoreCall(events, worlds, i, m.validity, shares, ViewsIn(m.View(), m.log[..], phases'));
      worlds := worlds + [ViewsIn(m.View(), m.log[..], phases')];
    }
  }

  // ---- What becomes of an addition

  /** Core `c` makes no call from the `i`-th on up to the `j`-th. */
  ghost predicate Quiet<I, S>(events: seq<Event<I, S>>, c: nat, i: nat, j: nat) {
    forall k {:trigger events[k]} :: i <= k < j && k < |events| ==> events[k].core != c
  }

  lemma {:induction false} QuietStays<I, S>(events: seq<Event<I, S>>, worlds: seq<seq<CoreView<I, S>>>, validity: int,
                                            shares: seq<seq<int>>, c: nat, i: nat, j: nat)
    requires CallsOk(events, worlds, |events|, validity, shares) && i <= j <= |events| && c < |worlds[i]|
    requires Quiet(events, c, i, j)
    ensures c < |worlds[j]| && worlds[j][c] == worlds[i][c]
  {
    if i < j {
      QuietStays(events, worlds, validity, shares, c, i, j - 1);
      assert CallAt(events, worlds, j - 1, validity, shares);
    }
  }

  /** A packet set that its handler asks to add while there is room for it, and that is committed after the handler's
      end, is registered with this state, whatever other cores do in between. */
  lemma AddedIsRegistered<I, S>(events: seq<Event<I, S>>, worlds: seq<seq<CoreView<I, S>>>, validity: int,
                                shares: seq<seq<int>>, c: nat, i: nat, j: nat, k: nat, id: I, state: S)
    requires CallsOk(events, worlds, |events|, validity, shares) && i < j < k < |events| && c < |shares|
    requires c < |worlds[i]| && worlds[i][c].phase == Handling(id) && |worlds[i][c].sets| < |shares[c]|
    requires events[i].core == events[j].core == events[k].core == c
    requires events[i].call == Add(state) && events[j].call == Finish && events[k].call == Commit
    requires Quiet(events, c, i + 1, j) && Quiet(events, c, j + 1, k)
    ensures c < |worlds[k + 1]| && worlds[k + 1][c].phase.Between?
    ensures id !in worlds[i][c].sets
    ensures worlds[k + 1][c].sets == worlds[i][c].sets[id := Entry(state, events[k].time)]
  {
    assert CallAt(events, worlds, i, validity, shares);
    QuietStays(events, worlds, validity, shares, c, i + 1, j);
    assert CallAt(events, worlds, j, validity, shares);
    QuietStays(events, worlds, validity, shares, c, j + 1, k);
    assert CallAt(events, worlds, k, validity, shares);
  }
}
