/** How long a packet set that is in use stays registered. */
module PktSetExpiry {
  import opened CellLists
  import opened PktSetManager

  /** A packet set is used, within its validity, before the partition is checked for expired packet sets.
      It stays registered exactly when it was not the only one of the partition, or had an earlier recorded
      use within the validity. */
  method UseThenExpire<I(==), S>(m: PktSetManager<I, S>, id: I, p: nat, used: int, time: int)
    returns (found: bool)
    requires m.Valid() && p < m.chain.n && id in m.PktSets(p)
    requires m.clocks[p] <= used && used >= time - m.validity
    modifies m.chain.cells, m.chain`layout, m.idToIndex`chains, m.idToIndex.buckets, m.idToIndex.next, m`clocks
    ensures m.Valid() && m.clocks == old(m.clocks)[p := used] && found
    ensures id in m.PktSets(p) <==>
              old(m.PktSets(p)).Keys != {id} || old(m.PktSets(p))[id].time >= time - m.validity
  {
    ghost var s := m.View();
    var index;
    found, index := m.GetPktSetState(id, p, used);
    UseIsRecorded(s, m.View(), m.chain.n, p, id, used);
    ExpireKnown(m, id, p, time);
  }

  lemma UseIsRecorded<I, S>(s: State<I, S>, t: State<I, S>, n: nat, p: nat, id: I, used: int)
    requires CM.UniqueKeys(s.table, s.chains) && id in Sets(s, n, p)
    requires if Sets(s, n, p).Keys == {id} then t == s
             else Changed(s, t, n, p, Sets(s, n, p)[id := Sets(s, n, p)[id].(time := used)])
    ensures CM.UniqueKeys(t.table, t.chains) && id in Sets(t, n, p)
    ensures Sets(t, n, p)[id].time == if Sets(s, n, p).Keys == {id} then Sets(s, n, p)[id].time else used
  {
    if Sets(s, n, p).Keys != {id} {
      assert Sets(t, n, p) == Sets(s, n, p)[id := Sets(s, n, p)[id].(time := used)];
    }
  }

  method ExpireNow<I(==), S>(m: PktSetManager<I, S>, p: nat, time: int)
    requires m.Valid() && p < m.chain.n
    modifies m.chain.cells, m.chain`layout, m.idToIndex`chains, m.idToIndex.buckets, m.idToIndex.next
    ensures m.Valid() && m.PktSets(p) == Recent(old(m.PktSets(p)), time - m.validity)
  {
    var count;
    ghost var trace;
    count, trace := m.DeleteExpiredPktSets(time, p);
  }

  method ExpireKnown<I(==), S>(m: PktSetManager<I, S>, id: I, p: nat, time: int)
    requires m.Valid() && p < m.chain.n && id in m.PktSets(p)
    modifies m.chain.cells, m.chain`layout, m.idToIndex`chains, m.idToIndex.buckets, m.idToIndex.next
    ensures m.Valid()
    ensures id in m.PktSets(p) <==> old(m.PktSets(p))[id].time >= time - m.validity
  {
    ExpireNow(m, p, time);
  }

  /** A new manager has a free index for every core. */
  lemma CoreHasFree(n: nat, block: nat, core: nat)
    requires core < n && block > 0
    ensures var l := InitialLayout(n, block);
            && Free(core) in l.lists && Ring(core) in l.lists && |l.lists[Free(core)]| == block
            && l.lists[Ring(core)] == []
  {
    assert Free(core) in Lists(n) && Ring(core) in Lists(n);
  }

  lemma EmptyPartition<I, S>(s: State<I, S>, n: nat, count: nat, clocks: seq<int>, p: nat)
    requires Coherent(s, n, count, clocks) && p < n && s.chains.owner == map[]
    ensures Sets(s, n, p) == map[]
  {
    forall id | id in Sets(s, n, p) ensures false {
      EntryOf(s, n, count, clocks, p, id);
    }
  }

  /** A new manager with one packet set. */
  method WithOneSet<I(==), S>(hash: I -> nat, size: nat, validity: int, n: nat, id: I, state: S, added: nat)
    returns (m: PktSetManager<I, S>)
    requires 0 < n <= size <= 0x8000_0000
    ensures m.Valid() && m.chain.n == n && m.validity == validity && m.clocks[0] == added
    ensures m.PktSets(0) == map[id := Entry(state, added)]
    ensures fresh(m) && fresh(m.chain) && fresh(m.chain.cells) && fresh(m.idToIndex) && fresh(m.idToIndex.buckets)
    ensures fresh(m.idToIndex.next)
  {
    m := new PktSetManager<I, S>(hash, size, validity, n, id, state);
    CoreHasFree(n, size / n, 0);
    EmptyPartition(m.View(), n, m.chain.Count(), m.clocks, 0);
    var logged := m.AddPktSetLog(0, state);
    ghost var s := m.View();
    m.AddPktSetCommit(0, id, added);
    assert Sets(m.View(), n, 0) == Sets(s, n, 0)[id := Entry(state, added)];
  }

  /** The only packet set of a partition is used at time `used`, which is within its validity at `time`, and
      forgotten at `time`. */
  method LoneSetIsForgotten<I(==), S>(hash: I -> nat, size: nat, validity: int, n: nat, id: I, state: S, added: nat,
                                      used: int, time: int)
    returns (found: bool, later: bool)
    requires 0 < n <= size <= 0x8000_0000
    requires added <= used <= time && added < time - validity <= used
    ensures found && !later
  {
    var m := WithOneSet(hash, size, validity, n, id, state, added);
    found, later := UseTwice(m, id, used, time);
  }

  /** The second use comes after a check for expired packet sets. */
  method UseTwice<I(==), S>(m: PktSetManager<I, S>, id: I, used: int, time: int) returns (found: bool, later: bool)
    requires m.Valid() && m.clocks[0] <= used <= time && m.PktSets(0).Keys == {id}
    requires m.PktSets(0)[id].time < time - m.validity <= used
    modifies m.chain.cells, m.chain`layout, m.idToIndex`chains, m.idToIndex.buckets, m.idToIndex.next, m`clocks
    ensures found && !later
  {
    found := UseThenExpire(m, id, 0, used, time);
    later := IsRegistered(m, id, 0, time);
  }

  method IsRegistered<I(==), S>(m: PktSetManager<I, S>, id: I, p: nat, time: int) returns (found: bool)
    requires m.Valid() && p < m.chain.n && m.clocks[p] <= time
    modifies m.chain.cells, m.chain`layout, m`clocks
    ensures found <==> id in old(m.PktSets(p))
  {
    var index;
    found, index := m.GetPktSetState(id, p, time);
  }

  // ---- Runs of one partition

  /** What happens to a partition: a packet of packet set `id` comes, `id` is registered, or the partition is
      checked for expired packet sets. */
  datatype Event<I, S> = Use(id: I, time: int) | Add(id: I, state: S, time: int) | Check(time: int)

  /** The registered packet sets after one event. */
  ghost function Next<I, S>(m: map<I, Entry<S>>, e: Event<I, S>, validity: int): map<I, Entry<S>> {
    match e
    case Use(id, time) => if id in m && m.Keys != {id} then m[id := m[id].(time := time)] else m
    case Add(id, state, time) => m[id := Entry(state, time)]
    case Check(time) => Recent(m, time - validity)
  }

  /** A run: the events, and the registered packet sets before the first one, between them, and at the end. */
  datatype Run<I, S> = Run(events: seq<Event<I, S>>, tables: seq<map<I, Entry<S>>>)

  /** Packet sets are registered only while they are unknown. */
  ghost predicate StepOk<I, S>(r: Run<I, S>, i: nat, validity: int)
    requires i < |r.events| && i + 1 < |r.tables|
  {
    && r.tables[i + 1] == Next(r.tables[i], r.events[i], validity)
    && (r.events[i].Add? ==> r.events[i].id !in r.tables[i])
  }

  /** The run begins with an empty partition, and its times, which are those of one core, do not decrease. */
  ghost predicate RunOk<I, S>(r: Run<I, S>, validity: int) {
    && |r.tables| == |r.events| + 1 && r.tables[0] == map[]
    && (forall i: nat {:trigger StepOk(r, i, validity)} :: i < |r.events| ==> StepOk(r, i, validity))
    && forall i, j {:trigger r.events[i], r.events[j]} ::
         0 <= i < j < |r.events| ==> r.events[i].time <= r.events[j].time
  }

  ghost function Last<I, S>(r: Run<I, S>): map<I, Entry<S>>
    requires r.tables != []
  {
    r.tables[|r.tables| - 1]
  }

  /** Event `i` is the registration of `id`, or a use. */
  predicate Concerns<I(==), S>(r: Run<I, S>, i: nat, id: I) {
    i < |r.events| && !r.events[i].Check? && r.events[i].id == id
  }

  /** The use finds `id` as the partition's only packet set, so that it is not recorded. */
  predicate FindsAlone<I(==), S>(r: Run<I, S>, i: nat, id: I)
    requires i < |r.events| && i < |r.tables|
  {
    r.events[i].Use? && r.tables[i].Keys == {id}
  }

  /** The event to which a registered packet set owes its time; at every use after it the packet set has been
      alone. */
  lemma {:induction false} LastRecorded<I, S>(r: Run<I, S>, validity: int, id: I, k: nat) returns (x: nat)
    requires RunOk(r, validity) && k < |r.tables| && id in r.tables[k]
    ensures x < k && Concerns(r, x, id) && r.events[x].time == r.tables[k][id].time && !FindsAlone(r, x, id)
    ensures forall i: nat {:trigger FindsAlone(r, i, id)} :: x < i < k && Concerns(r, i, id) ==> FindsAlone(r, i, id)
  {
    assert StepOk(r, k - 1, validity);
    if Concerns(r, k - 1, id) && !FindsAlone(r, k - 1, id) {
      x := k - 1;
    } else {
      x := LastRecorded(r, validity, id, k - 1);
    }
  }

  /** A registered packet set is forgotten at a check exactly when it has not been registered within the
      validity, and every use within the validity has found it alone in its partition. */
  lemma ForgottenWhenAlone<I, S>(r: Run<I, S>, validity: int, k: nat, id: I)
    requires RunOk(r, validity) && k < |r.events| && r.events[k].Check? && id in r.tables[k]
    ensures id !in r.tables[k + 1] <==>
              forall i: nat {:trigger FindsAlone(r, i, id)} ::
                i < k && Concerns(r, i, id) && r.events[i].time >= r.events[k].time - validity ==> FindsAlone(r, i, id)
  {
    assert StepOk(r, k, validity);
    var x := LastRecorded(r, validity, id, k);
  }

  // ---- One more event

  function Extended<I, S>(r: Run<I, S>, e: Event<I, S>, m: map<I, Entry<S>>): Run<I, S> {
    Run(r.events + [e], r.tables + [m])
  }

  /** No event is later than `time`. */
  ghost predicate Until<I, S>(r: Run<I, S>, time: int) {
    forall i {:trigger r.events[i]} :: 0 <= i < |r.events| ==> r.events[i].time <= time
  }

  /** The run so far leaves the packet sets `m`. */
  ghost predicate Leaves<I, S>(r: Run<I, S>, validity: int, time: int, m: map<I, Entry<S>>) {
    RunOk(r, validity) && Until(r, time) && Last(r) == m
  }

  lemma OneMoreEvent<I, S>(r: Run<I, S>, e: Event<I, S>, validity: int, m: map<I, Entry<S>>, m': map<I, Entry<S>>)
    requires Leaves(r, validity, e.time, m) && m' == Next(m, e, validity) && (e.Add? ==> e.id !in m)
    ensures Leaves(Extended(r, e, m'), validity, e.time, m')
  {
    var all := Extended(r, e, m');
    forall i: nat | i < |all.events| ensures StepOk(all, i, validity) {
      assert i < |r.events| ==> StepOk(r, i, validity);
    }
  }

  lemma LaterToo<I, S>(r: Run<I, S>, validity: int, time: int, later: int, m: map<I, Entry<S>>)
    requires Leaves(r, validity, time, m) && time <= later
    ensures Leaves(r, validity, later, m)
  {
  }
}
