/** The packet set manager carries out the steps of the log-then-commit protocol, so that its invariant
    holds whenever cores call the manager in the order in which they handle packets. */
module PktSetSteps {
  import opened CellLists
  import opened DchainExp
  import opened PktSetManager
  import P = PktSetProtocol
  import E = PktSetExpiry

  /** Where a core is: between packets, inside the handler of a packet of the unknown packet set `id`, or
      about to commit its log. */
  datatype Phase<I> = Between | Handling(id: I) | Committing(id: I)

  function PcOf<I>(f: Phase<I>): P.Pc {
    match f
    case Between => P.Idle
    case Handling(_) => P.InHandler
    case Committing(_) => P.Committing
  }

  ghost function CoreOf<I>(l: Layout, flag: bool, f: Phase<I>, c: nat): P.Core
    requires Free(c) in l.lists && Ring(c) in l.lists
  {
    P.Core(PcOf(f), l.lists[Free(c)], l.lists[Ring(c)], flag)
  }

  /** The state of the protocol: the lists, the log flags and the phases of the cores. */
  ghost function Abstract<I>(l: Layout, flags: seq<bool>, phases: seq<Phase<I>>): (s: P.State)
    requires HasLists(|phases|, l) && |flags| == |phases|
    ensures |s.cores| == |phases|
  {
    P.State(seq(|phases|, c requires 0 <= c < |phases| => CoreOf(l, flags[c], phases[c], c)), l.lists[Global])
  }

  // ---- Steps

  lemma RunOne(s: P.State, c: nat, a: P.Action)
    requires c < |s.cores|
    ensures forall x :: x in [(c, a)] ==> x.0 < |s.cores|
    ensures P.Run(s, [(c, a)]) == P.Step(s, c, a)
  {
    var all := [(c, a)];
    assert all[..0] == [];
    assert P.Run(s, all[..0]) == s;
  }

  lemma RunMore(s: P.State, schedule: seq<(nat, P.Action)>, c: nat, a: P.Action)
    requires c < |s.cores| && forall x :: x in schedule ==> x.0 < |s.cores|
    ensures forall x :: x in schedule + [(c, a)] ==> x.0 < |s.cores|
    ensures P.Run(s, schedule + [(c, a)]) == P.Step(P.Run(s, schedule), c, a)
  {
    var all := schedule + [(c, a)];
    assert all[..|schedule|] == schedule && all[|schedule|] == (c, a);
  }

  lemma RunTwo(s: P.State, c: nat, a: P.Action, b: P.Action)
    requires c < |s.cores|
    ensures forall x :: x in [(c, a), (c, b)] ==> x.0 < |s.cores|
    ensures P.Run(s, [(c, a), (c, b)]) == P.Step(P.Step(s, c, a), c, b)
  {
    RunOne(s, c, a);
    RunMore(s, [(c, a)], c, b);
    assert [(c, a)] + [(c, b)] == [(c, a), (c, b)];
  }

  lemma {:induction false} RunBoth(s: P.State, first: seq<(nat, P.Action)>, second: seq<(nat, P.Action)>)
    requires forall x :: x in first ==> x.0 < |s.cores|
    requires forall x :: x in second ==> x.0 < |s.cores|
    ensures forall x :: x in first + second ==> x.0 < |s.cores|
    ensures P.Run(s, first + second) == P.Run(P.Run(s, first), second)
  {
    if second == [] {
      assert first + second == first;
    } else {
      var last := |second| - 1;
      RunBoth(s, first, second[..last]);
      assert second[last] in second;
      RunMore(s, first + second[..last], second[last].0, second[last].1);
      assert first + second == first + second[..last] + [second[last]];
    }
  }

  ghost predicate OwnSchedule(schedule: seq<(nat, P.Action)>, c: nat) {
    forall x :: x in schedule ==> x.0 == c
  }

  /** A step of the phase and the flag alone. */
  lemma PhaseStep<I>(l: Layout, flags: seq<bool>, phases: seq<Phase<I>>, c: nat, a: P.Action, flag: bool, f: Phase<I>)
    requires HasLists(|phases|, l) && |flags| == |phases| && c < |phases|
    requires P.OwnStep(CoreOf(l, flags[c], phases[c], c), a) == CoreOf(l, flag, f, c)
    ensures P.Step(Abstract(l, flags, phases), c, a) == Abstract(l, flags[c := flag], phases[c := f])
  {
  }

  /** A local allocation is two steps: take the index from the free list, put it on the ring. */
  lemma InstalledIsSteps<I>(l: Layout, flags: seq<bool>, phases: seq<Phase<I>>, c: nat)
    requires HasLists(|phases|, l) && |flags| == |phases| && c < |phases|
    requires phases[c].Committing? && flags[c] && l.lists[Free(c)] != []
    ensures HasLists(|phases|, CD.Installed(l, Free(c), c))
    ensures P.Step(P.Step(Abstract(l, flags, phases), c, P.Go), c, P.Go)
            == Abstract(CD.Installed(l, Free(c), c), flags, phases[c := Between])
  {
    var s, m := l.lists[Free(c)], CD.Installed(l, Free(c), c);
    assert s[..0] + s[0 + 1..] == s[1..];
    var one := P.Step(Abstract(l, flags, phases), c, P.Go);
    assert one.cores[c] == P.Core(P.Holding(s[0]), s[1..], l.lists[Ring(c)], true);
    assert P.Step(one, c, P.Go).cores[c] == CoreOf(m, true, Phase<I>.Between, c);
    forall d | 0 <= d < |phases| && d != c
      ensures CoreOf(m, flags[d], phases[d], d) == CoreOf(l, flags[d], phases[d], d)
    {
    }
    assert P.Step(one, c, P.Go).cores == Abstract(m, flags, phases[c := Between]).cores;
  }

  /** Freeing the oldest index is two steps: take it from the ring, put it on the free list. */
  lemma FreedIsSteps<I>(l: Layout, m: Layout, flags: seq<bool>, phases: seq<Phase<I>>, c: nat)
    requires HasLists(|phases|, l) && |flags| == |phases| && c < |phases| && phases[c].Between?
    requires FirstFreed(l, m, c)
    ensures HasLists(|phases|, m)
    ensures P.Step(P.Step(Abstract(l, flags, phases), c, P.Expire), c, P.Go) == Abstract(m, flags, phases)
  {
    var s := l.lists[Ring(c)];
    assert s[..0] + s[0 + 1..] == s[1..];
    var one := P.Step(Abstract(l, flags, phases), c, P.Expire);
    assert one.cores[c] == P.Core(P.Releasing(s[0]), l.lists[Free(c)], s[1..], flags[c]);
    assert P.Step(one, c, P.Go).cores[c] == CoreOf(m, flags[c], phases[c], c);
    forall d | 0 <= d < |phases| && d != c
      ensures CoreOf(m, flags[d], phases[d], d) == CoreOf(l, flags[d], phases[d], d)
    {
    }
    assert P.Step(one, c, P.Go).cores == Abstract(m, flags, phases).cores;
  }

  /** A rejuvenation is one step. */
  lemma LiftedIsStep<I>(l: Layout, flags: seq<bool>, phases: seq<Phase<I>>, c: nat, k: nat)
    requires HasLists(|phases|, l) && |flags| == |phases| && c < |phases| && phases[c].Between?
    requires k < |l.lists[Ring(c)]|
    ensures HasLists(|phases|, Lifted(l, Ring(c), k))
    ensures P.Step(Abstract(l, flags, phases), c, P.Touch(k)) == Abstract(Lifted(l, Ring(c), k), flags, phases)
  {
    var m := Lifted(l, Ring(c), k);
    forall d | 0 <= d < |phases| && d != c
      ensures CoreOf(m, flags[d], phases[d], d) == CoreOf(l, flags[d], phases[d], d)
    {
    }
    assert P.Step(Abstract(l, flags, phases), c, P.Touch(k)).cores == Abstract(m, flags, phases).cores;
  }

  lemma FreedIsRun<I>(l: Layout, m: Layout, flags: seq<bool>, phases: seq<Phase<I>>, c: nat)
    requires HasLists(|phases|, l) && |flags| == |phases| && c < |phases| && phases[c].Between?
    requires FirstFreed(l, m, c)
    ensures HasLists(|phases|, m) && OwnSchedule([(c, P.Expire), (c, P.Go)], c)
    ensures P.Run(Abstract(l, flags, phases), [(c, P.Expire), (c, P.Go)]) == Abstract(m, flags, phases)
  {
    FreedIsSteps(l, m, flags, phases, c);
    RunTwo(Abstract(l, flags, phases), c, P.Expire, P.Go);
  }

  /** An expiration pass is a run of such steps. */
  lemma {:induction false} TraceIsRun<I>(trace: seq<Layout>, flags: seq<bool>, phases: seq<Phase<I>>, c: nat, j: nat)
    returns (schedule: seq<(nat, P.Action)>)
    requires trace != [] && HasLists(|phases|, trace[0]) && |flags| == |phases| && c < |phases| && phases[c].Between?
    requires FreedOneByOne(trace, c) && j < |trace|
    ensures HasLists(|phases|, trace[j]) && OwnSchedule(schedule, c)
    ensures P.Run(Abstract(trace[0], flags, phases), schedule) == Abstract(trace[j], flags, phases)
  {
    schedule := [];
    if j > 0 {
      var l, m := trace[j - 1], trace[j];
      schedule := TraceIsRun(trace, flags, phases, c, j - 1);
      FreedIsRun(l, m, flags, phases, c);
      RunBoth(Abstract(trace[0], flags, phases), schedule, [(c, P.Expire), (c, P.Go)]);
      schedule := schedule + [(c, P.Expire), (c, P.Go)];
    }
  }

  // ---- The manager between two calls

  function FlagsOf<S>(log: seq<LogEntry<S>>): (flags: seq<bool>)
    ensures |flags| == |log|
  {
    seq(|log|, c requires 0 <= c < |log| => log[c].addPktSet)
  }

  /** The packet set that core `c` handles is unknown. */
  ghost predicate StillUnknown<I, S>(s: State<I, S>, f: Phase<I>, n: nat, c: nat)
    requires CM.UniqueKeys(s.table, s.chains)
  {
    !f.Between? ==> f.id !in Sets(s, n, c)
  }

  /** The protocol's invariant holds, and whoever handles a packet of an unknown packet set is right that it
      is unknown. */
  ghost predicate Linked<I, S>(s: State<I, S>, flags: seq<bool>, phases: seq<Phase<I>>, n: nat, count: nat,
                               clocks: seq<int>, shares: seq<seq<int>>)
  {
    && Coherent(s, n, count, clocks) && |flags| == |phases| == n
    && P.Inv(Abstract(s.layout, flags, phases), shares)
    && forall c: nat {:trigger StillUnknown(s, phases[c], n, c)} :: c < n ==> StillUnknown(s, phases[c], n, c)
  }

  /** What a call of core `c` keeps, when it is a run of steps of the core. */
  lemma StaysLinked<I, S>(s: State<I, S>, t: State<I, S>, flags: seq<bool>, flags': seq<bool>, phases: seq<Phase<I>>,
                          f: Phase<I>, n: nat, count: nat, clocks: seq<int>, clocks': seq<int>,
                          shares: seq<seq<int>>, c: nat, schedule: seq<(nat, P.Action)>)
    requires Linked(s, flags, phases, n, count, clocks, shares) && c < n && |flags'| == n
    requires Coherent(t, n, count, clocks') && (t == s || Changed(s, t, n, c, Sets(t, n, c)))
    requires OwnSchedule(schedule, c)
    requires P.Run(Abstract(s.layout, flags, phases), schedule) == Abstract(t.layout, flags', phases[c := f])
    requires StillUnknown(t, f, n, c)
    ensures Linked(t, flags', phases[c := f], n, count, clocks', shares)
  {
    P.RunKeepsInv(Abstract(s.layout, flags, phases), schedule, shares);
    var phases' := phases[c := f];
    forall d: nat | d < n ensures StillUnknown(t, phases'[d], n, d) {
      assert StillUnknown(s, phases[d], n, d);
      assert d != c ==> Sets(t, n, d) == Sets(s, n, d);
    }
  }

  /** What `AddPktSetCommit` demands. */
  lemma CommitIsReady<I, S>(s: State<I, S>, flags: seq<bool>, phases: seq<Phase<I>>, n: nat, count: nat,
                            clocks: seq<int>, shares: seq<seq<int>>, c: nat)
    requires Linked(s, flags, phases, n, count, clocks, shares) && c < n && phases[c].Committing?
    ensures flags[c] ==> s.layout.lists[Free(c)] != []
    ensures phases[c].id !in Sets(s, n, c)
  {
    assert P.CoreOk(Abstract(s.layout, flags, phases).cores[c], shares[c]);
    assert StillUnknown(s, phases[c], n, c);
  }

  ghost predicate Running<I, S>(m: PktSetManager<I, S>, phases: seq<Phase<I>>, shares: seq<seq<int>>)
    reads m, m.chain, m.chain.cells, m.idToIndex, m.idToIndex.buckets, m.idToIndex.next, m.idToIndex.ids, m.states
    reads m.log
  {
    m.Valid() && Linked(m.View(), FlagsOf(m.log[..]), phases, m.chain.n, m.chain.Count(), m.clocks, shares)
  }

  /** The protocol's state of a running manager. */
  ghost function StateOf<I, S>(m: PktSetManager<I, S>, phases: seq<Phase<I>>): P.State
    reads m, m.chain, m.chain.cells, m.idToIndex, m.idToIndex.buckets, m.idToIndex.next, m.idToIndex.ids, m.states
    reads m.log
    requires m.Valid() && |phases| == m.chain.n
  {
    Abstract(m.chain.layout, FlagsOf(m.log[..]), phases)
  }

  // ---- Calls

  datatype Call<I, S> = Packet(id: I) | Add(state: S) | Restart | Finish | Commit | CheckExpired

  /** Whether a core in this phase makes such a call. */
  predicate Fits<I, S>(f: Phase<I>, call: Call<I, S>) {
    match call
    case Packet(_) => f.Between?
    case CheckExpired => f.Between?
    case Commit => f.Committing?
    case _ => f.Handling?
  }

  /** The core's phase after the call, and what the call does to the core's packet sets; a call that does not
      fit does nothing. */
  ghost function NextPhase<I, S>(f: Phase<I>, call: Call<I, S>, known: map<I, Entry<S>>): Phase<I> {
    if !Fits(f, call) then f
    else
      match call
      case Packet(id) => if id in known then Between else Handling(id)
      case Finish => Committing(f.id)
      case Commit => Between
      case _ => f
  }

  /** The event, if any, in the life of the core's partition. */
  function Told<I, S>(f: Phase<I>, call: Call<I, S>, log: LogEntry<S>, time: int): seq<E.Event<I, S>> {
    if !Fits(f, call) then []
    else
      match call
      case Packet(id) => [E.Use(id, time)]
      case CheckExpired => [E.Check(time)]
      case Commit => if log.addPktSet then [E.Add(f.id, log.state, time)] else []
      case _ => []
  }

  ghost function TableAfter<I, S>(m: map<I, Entry<S>>, told: seq<E.Event<I, S>>, validity: int): map<I, Entry<S>> {
    if told == [] then m else E.Next(m, told[0], validity)
  }

  /** Partition `c` holds only what has a recorded use since `last`. */
  ghost predicate WithoutExpired<I, S>(s: State<I, S>, t: State<I, S>, n: nat, c: nat, last: int) {
    CM.UniqueKeys(s.table, s.chains) && Changed(s, t, n, c, Recent(Sets(s, n, c), last))
  }

  /** A call of a core in phase `f` has taken the manager from `s` to `t` and the core to phase `f'`. */
  ghost predicate Performed<I, S>(s: State<I, S>, t: State<I, S>, n: nat, c: nat, f: Phase<I>, f': Phase<I>,
                                  call: Call<I, S>, log: LogEntry<S>, time: int, validity: int)
  {
    && CM.UniqueKeys(s.table, s.chains)
    && f' == NextPhase(f, call, Sets(s, n, c))
    && (Fits(f, call) && call.Commit? ==> f.id !in Sets(s, n, c))
    && if Fits(f, call) && call.CheckExpired? then WithoutExpired(s, t, n, c, time - validity)
       else Changed(s, t, n, c, TableAfter(Sets(s, n, c), Told(f, call, log, time), validity))
  }

  /** What the call does to the core's log; `hasFree` says that the core has a free index. */
  ghost predicate LogAfter<I, S>(f: Phase<I>, f': Phase<I>, call: Call<I, S>, hasFree: bool, log: LogEntry<S>,
                                 log': LogEntry<S>) {
    if (call.Packet? && f.Between? && f'.Handling?) || (call.Restart? && f.Handling?) then !log'.addPktSet
    else log' == if call.Add? && f.Handling? && hasFree then LogEntry(true, call.state) else log
  }

  lemma PerformedChanges<I, S>(s: State<I, S>, t: State<I, S>, n: nat, c: nat, f: Phase<I>, f': Phase<I>,
                               call: Call<I, S>, log: LogEntry<S>, time: int, validity: int)
    requires Performed(s, t, n, c, f, f', call, log, time, validity)
    ensures Changed(s, t, n, c, TableAfter(Sets(s, n, c), Told(f, call, log, time), validity))
  {
  }

  lemma NothingPerformed<I, S>(s: State<I, S>, n: nat, c: nat, f: Phase<I>, f': Phase<I>, call: Call<I, S>,
                               log: LogEntry<S>, time: int, validity: int)
    requires CM.UniqueKeys(s.table, s.chains) && Told(f, call, log, time) == []
    requires Fits(f, call) ==> !call.Commit?
    requires f' == NextPhase(f, call, Sets(s, n, c))
    ensures Performed(s, s, n, c, f, f', call, log, time, validity)
  {
  }

  lemma CommitPerformed<I, S>(s: State<I, S>, t: State<I, S>, n: nat, c: nat, f: Phase<I>, log: LogEntry<S>, time: int,
                              validity: int)
    requires CM.UniqueKeys(s.table, s.chains) && f.Committing? && f.id !in Sets(s, n, c)
    requires if log.addPktSet then Changed(s, t, n, c, Sets(s, n, c)[f.id := Entry(log.state, time)]) else t == s
    ensures Performed(s, t, n, c, f, Between, Call.Commit, log, time, validity)
  {
  }

  /** The commit of core `c`, after which it is between packets. */
  method Commit<I(==), S>(m: PktSetManager<I, S>, phases: seq<Phase<I>>, c: nat, time: int, ghost shares: seq<seq<int>>)
    returns (phases': seq<Phase<I>>, ghost schedule: seq<(nat, P.Action)>)
    requires Running(m, phases, shares) && c < m.chain.n && phases[c].Committing? && m.clocks[c] <= time
    modifies m.chain.cells, m.chain`layout, m.idToIndex`chains, m.idToIndex.buckets, m.idToIndex.next, m.idToIndex.ids
    modifies m.states, m`clocks
    ensures phases' == phases[c := Between] && Running(m, phases', shares) && m.clocks == old(m.clocks)[c := time]
    ensures OwnSchedule(schedule, c) && P.Run(old(StateOf(m, phases)), schedule) == StateOf(m, phases')
    ensures Performed(old(m.View()), m.View(), m.chain.n, c, phases[c], Between, Call.Commit, m.log[c], time,
                      m.validity)
  {
    ghost var s, flags, n, count, clocks := m.View(), FlagsOf(m.log[..]), m.chain.n, m.chain.Count(), m.clocks;
    CommitIsReady(s, flags, phases, n, count, clocks, shares, c);
    m.AddPktSetCommit(c, phases[c].id, time);
    phases' := phases[c := Between];
    schedule := CommitSchedule(s.layout, flags, phases, c);
    StaysLinked(s, m.View(), flags, flags, phases, Between, n, count, clocks, m.clocks, shares, c, schedule);
    CommitPerformed(s, m.View(), n, c, phases[c], m.log[c], time, m.validity);
  }

  lemma CommitSchedule<I>(l: Layout, flags: seq<bool>, phases: seq<Phase<I>>, c: nat)
    returns (schedule: seq<(nat, P.Action)>)
    requires HasLists(|phases|, l) && |flags| == |phases| && c < |phases| && phases[c].Committing?
    requires flags[c] ==> l.lists[Free(c)] != []
    ensures OwnSchedule(schedule, c)
    ensures flags[c] ==> HasLists(|phases|, CD.Installed(l, Free(c), c))
    ensures P.Run(Abstract(l, flags, phases), schedule)
            == Abstract(if flags[c] then CD.Installed(l, Free(c), c) else l, flags, phases[c := Between])
  {
    if flags[c] {
      InstalledIsSteps(l, flags, phases, c);
      RunTwo(Abstract(l, flags, phases), c, P.Go, P.Go);
      schedule := [(c, P.Go), (c, P.Go)];
    } else {
      PhaseStep(l, flags, phases, c, P.Go, false, Between);
      RunOne(Abstract(l, flags, phases), c, P.Go);
      schedule := [(c, P.Go)];
    }
  }

  /** A packet of packet set `id` comes to core `c`: its state is looked up, or else its handler begins. */
  method Packet<I(==), S>(m: PktSetManager<I, S>, phases: seq<Phase<I>>, c: nat, id: I, time: int,
                          ghost shares: seq<seq<int>>)
    returns (phases': seq<Phase<I>>, ghost schedule: seq<(nat, P.Action)>)
    requires Running(m, phases, shares) && c < m.chain.n && phases[c].Between? && m.clocks[c] <= time
    modifies m.chain.cells, m.chain`layout, m`clocks, m.log
    ensures phases' == phases[c := if id in old(m.PktSets(c)) then Between else Handling(id)]
    ensures Running(m, phases', shares) && m.clocks == old(m.clocks)[c := time]
    ensures OwnSchedule(schedule, c) && P.Run(old(StateOf(m, phases)), schedule) == StateOf(m, phases')
    ensures Performed(old(m.View()), m.View(), m.chain.n, c, phases[c], phases'[c], Call.Packet(id), old(m.log[c]),
                      time, m.validity)
    ensures m.log[..] == old(m.log[..])[c := m.log[c]]
    ensures LogAfter(phases[c], phases'[c], Call<I, S>.Packet(id), false, old(m.log[c]), m.log[c])
  {
    ghost var s, flags, n, count, clocks := m.View(), FlagsOf(m.log[..]), m.chain.n, m.chain.Count(), m.clocks;
    var found, index := m.GetPktSetState(id, c, time);
    phases', schedule := phases, [];
    if found {
      schedule := UseSchedule(s.layout, m.chain.layout, flags, phases, c);
      StaysLinked(s, m.View(), flags, flags, phases, Between, n, count, clocks, m.clocks, shares, c, schedule);
      assert phases[c := Between] == phases;
    } else {
      phases', schedule := Begin(m, phases, c, id, time, s, clocks, shares);
    }
  }

  lemma UseSchedule<I>(l: Layout, l': Layout, flags: seq<bool>, phases: seq<Phase<I>>, c: nat)
    returns (schedule: seq<(nat, P.Action)>)
    requires HasLists(|phases|, l) && HasLists(|phases|, l') && |flags| == |phases|
    requires c < |phases| && phases[c].Between?
    requires l' == l || OneLifted(l, l', c)
    ensures OwnSchedule(schedule, c)
    ensures P.Run(Abstract(l, flags, phases), schedule) == Abstract(l', flags, phases[c := Between])
  {
    assert phases[c := Between] == phases;
    schedule := [];
    if l' != l {
      var k: nat :| k < |l.lists[Ring(c)]| && l' == Lifted(l, Ring(c), k);
      LiftedIsStep(l, flags, phases, c, k);
      RunOne(Abstract(l, flags, phases), c, P.Touch(k));
      schedule := [(c, P.Touch(k))];
    }
  }

  /** The handler of an unknown packet set begins with an empty log. */
  method Begin<I(==), S>(m: PktSetManager<I, S>, phases: seq<Phase<I>>, c: nat, id: I, time: int, ghost s: State<I, S>,
                         ghost clocks: seq<int>, ghost shares: seq<seq<int>>)
    returns (phases': seq<Phase<I>>, ghost schedule: seq<(nat, P.Action)>)
    requires m.Valid() && c < m.chain.n && m.View() == s && id !in m.PktSets(c)
    requires Linked(s, FlagsOf(m.log[..]), phases, m.chain.n, m.chain.Count(), clocks, shares) && phases[c].Between?
    modifies m.log
    ensures phases' == phases[c := Handling(id)] && Running(m, phases', shares) && m.View() == s
    ensures m.log[..] == old(m.log[..])[c := m.log[c]] && !m.log[c].addPktSet
    ensures OwnSchedule(schedule, c)
    ensures P.Run(Abstract(s.layout, old(FlagsOf(m.log[..])), phases), schedule) == StateOf(m, phases')
  {
    ghost var flags := FlagsOf(m.log[..]);
    m.AddPktSetLogClear(c);
    phases', schedule := phases[c := Handling(id)], [(c, P.Begin)];
    assert FlagsOf(m.log[..]) == flags[c := false];
    PhaseStep(s.layout, flags, phases, c, P.Begin, false, Handling(id));
    RunOne(Abstract(s.layout, flags, phases), c, P.Begin);
    StaysLinked(s, m.View(), flags, flags[c := false], phases, Handling(id), m.chain.n, m.chain.Count(), clocks,
                m.clocks, shares, c, schedule);
  }

  /** A step inside the handler: log the addition, start again, or come to the end. */
  lemma HandlerStep<I, S>(s: State<I, S>, flags: seq<bool>, phases: seq<Phase<I>>, n: nat, count: nat, clocks: seq<int>,
                          shares: seq<seq<int>>, c: nat, a: P.Action, flag: bool, f: Phase<I>)
    requires Linked(s, flags, phases, n, count, clocks, shares) && c < n && phases[c].Handling?
    requires a.Log? || a.Retry? || a.Finish?
    requires f == if a.Finish? then Committing(phases[c].id) else phases[c]
    requires flag == if a.Log? then flags[c] || s.layout.lists[Free(c)] != [] else !a.Retry? && flags[c]
    ensures Linked(s, flags[c := flag], phases[c := f], n, count, clocks, shares)
    ensures OwnSchedule([(c, a)], c)
    ensures P.Run(Abstract(s.layout, flags, phases), [(c, a)]) == Abstract(s.layout, flags[c := flag], phases[c := f])
  {
    PhaseStep(s.layout, flags, phases, c, a, flag, f);
    RunOne(Abstract(s.layout, flags, phases), c, a);
    assert StillUnknown(s, phases[c], n, c);
    StaysLinked(s, s, flags, flags[c := flag], phases, f, n, count, clocks, clocks, shares, c, [(c, a)]);
  }

  method AddToLog<I(==), S>(m: PktSetManager<I, S>, phases: seq<Phase<I>>, c: nat, state: S,
                            ghost shares: seq<seq<int>>)
    returns (ghost schedule: seq<(nat, P.Action)>)
    requires Running(m, phases, shares) && c < m.chain.n && phases[c].Handling?
    modifies m.log
    ensures Running(m, phases, shares) && m.View() == old(m.View())
    ensures Free(c) in m.chain.layout.lists && m.log[..] == old(m.log[..])[c := m.log[c]]
    ensures m.log[c] == if m.chain.layout.lists[Free(c)] != [] then LogEntry(true, state) else old(m.log[c])
    ensures OwnSchedule(schedule, c) && P.Run(old(StateOf(m, phases)), schedule) == StateOf(m, phases)
  {
    ghost var flags := FlagsOf(m.log[..]);
    var ok := m.AddPktSetLog(c, state);
    schedule := [(c, P.Log)];
    HandlerStep(m.View(), flags, phases, m.chain.n, m.chain.Count(), m.clocks, shares, c, P.Log, flags[c] || ok,
                phases[c]);
    assert FlagsOf(m.log[..]) == flags[c := flags[c] || ok] && phases[c := phases[c]] == phases;
  }

  /** The handler is aborted and starts again. */
  method Restart<I(==), S>(m: PktSetManager<I, S>, phases: seq<Phase<I>>, c: nat, ghost shares: seq<seq<int>>)
    returns (ghost schedule: seq<(nat, P.Action)>)
    requires Running(m, phases, shares) && c < m.chain.n && phases[c].Handling?
    modifies m.log
    ensures Running(m, phases, shares) && m.View() == old(m.View())
    ensures m.log[..] == old(m.log[..])[c := m.log[c]] && !m.log[c].addPktSet
    ensures OwnSchedule(schedule, c) && P.Run(old(StateOf(m, phases)), schedule) == StateOf(m, phases)
  {
    ghost var flags := FlagsOf(m.log[..]);
    m.AddPktSetLogClear(c);
    schedule := [(c, P.Retry)];
    HandlerStep(m.View(), flags, phases, m.chain.n, m.chain.Count(), m.clocks, shares, c, P.Retry, false,
                phases[c]);
    assert FlagsOf(m.log[..]) == flags[c := false] && phases[c := phases[c]] == phases;
  }

  method Finish<I(==), S>(m: PktSetManager<I, S>, phases: seq<Phase<I>>, c: nat, ghost shares: seq<seq<int>>)
    returns (phases': seq<Phase<I>>, ghost schedule: seq<(nat, P.Action)>)
    requires Running(m, phases, shares) && c < m.chain.n && phases[c].Handling?
    ensures phases' == phases[c := Committing(phases[c].id)] && Running(m, phases', shares)
    ensures OwnSchedule(schedule, c) && P.Run(StateOf(m, phases), schedule) == StateOf(m, phases')
  {
    ghost var flags := FlagsOf(m.log[..]);
    phases', schedule := phases[c := Committing(phases[c].id)], [(c, P.Finish)];
    HandlerStep(m.View(), flags, phases, m.chain.n, m.chain.Count(), m.clocks, shares, c, P.Finish, flags[c],
                phases'[c]);
    assert flags[c := flags[c]] == flags;
  }

  /** An expiration pass of core `c`. */
  method CheckExpired<I(==), S>(m: PktSetManager<I, S>, phases: seq<Phase<I>>, c: nat, time: int,
                                ghost shares: seq<seq<int>>)
    returns (ghost schedule: seq<(nat, P.Action)>)
    requires Running(m, phases, shares) && c < m.chain.n && phases[c].Between?
    modifies m.chain.cells, m.chain`layout, m.idToIndex`chains, m.idToIndex.buckets, m.idToIndex.next
    ensures Running(m, phases, shares)
    ensures OwnSchedule(schedule, c) && P.Run(old(StateOf(m, phases)), schedule) == StateOf(m, phases)
    ensures WithoutExpired(old(m.View()), m.View(), m.chain.n, c, time - m.validity)
  {
    ghost var s, flags, n, count, clocks := m.View(), FlagsOf(m.log[..]), m.chain.n, m.chain.Count(), m.clocks;
    var gone;
    ghost var trace;
    gone, trace := m.DeleteExpiredPktSets(time, c);
    schedule := TraceIsRun(trace, flags, phases, c, gone);
    assert phases[c := Between] == phases;
    StaysLinked(s, m.View(), flags, flags, phases, Between, n, count, clocks, clocks, shares, c, schedule);
  }

  // ---- Any interleaving of the cores

  /** A call of core `c` at some time; it is left out when the core is in another phase. */
  method Perform<I(==), S>(m: PktSetManager<I, S>, phases: seq<Phase<I>>, c: nat, call: Call<I, S>, time: int,
                           ghost shares: seq<seq<int>>)
    returns (phases': seq<Phase<I>>, ghost schedule: seq<(nat, P.Action)>)
    requires Running(m, phases, shares) && c < m.chain.n && m.clocks[c] <= time
    modifies m.chain.cells, m.chain`layout, m.idToIndex`chains, m.idToIndex.buckets, m.idToIndex.next, m.idToIndex.ids
    modifies m.states, m`clocks, m.log
    ensures |phases'| == |phases| && phases' == phases[c := phases'[c]] && Running(m, phases', shares)
    ensures Performed(old(m.View()), m.View(), m.chain.n, c, phases[c], phases'[c], call, old(m.log[c]), time,
                      m.validity)
    ensures m.log[..] == old(m.log[..])[c := m.log[c]] && Free(c) in old(m.chain.layout.lists)
    ensures LogAfter(phases[c], phases'[c], call, old(m.chain.layout.lists[Free(c)] != []), old(m.log[c]), m.log[c])
    ensures m.clocks[c] <= time && m.clocks == old(m.clocks)[c := m.clocks[c]]
    ensures OwnSchedule(schedule, c) && P.Run(old(StateOf(m, phases)), schedule) == StateOf(m, phases')
  {
    phases', schedule := phases, [];
    assert phases[c := phases[c]] == phases;
    if !Fits(phases[c], call) {
      NothingPerformed(m.View(), m.chain.n, c, phases[c], phases[c], call, m.log[c], time, m.validity);
      return;
    }
    match call {
      case Packet(id) => phases', schedule := Packet(m, phases, c, id, time, shares);
      case Commit => phases', schedule := Commit(m, phases, c, time, shares);
      case CheckExpired => schedule := CheckExpired(m, phases, c, time, shares);
      case _ => phases', schedule := Handle(m, phases, c, call, time, shares);
    }
  }

  /** A call from inside a handler. */
  method Handle<I(==), S>(m: PktSetManager<I, S>, phases: seq<Phase<I>>, c: nat, call: Call<I, S>, ghost time: int,
                          ghost shares: seq<seq<int>>)
    returns (phases': seq<Phase<I>>, ghost schedule: seq<(nat, P.Action)>)
    requires Running(m, phases, shares) && c < m.chain.n && phases[c].Handling?
    requires call.Add? || call.Restart? || call.Finish?
    modifies m.log
    ensures |phases'| == |phases| && phases' == phases[c := phases'[c]] && Running(m, phases', shares)
    ensures Performed(old(m.View()), m.View(), m.chain.n, c, phases[c], phases'[c], call, old(m.log[c]), time,
                      m.validity)
    ensures m.log[..] == old(m.log[..])[c := m.log[c]] && Free(c) in m.chain.layout.lists
    ensures LogAfter(phases[c], phases'[c], call, m.chain.layout.lists[Free(c)] != [], old(m.log[c]), m.log[c])
    ensures OwnSchedule(schedule, c) && P.Run(old(StateOf(m, phases)), schedule) == StateOf(m, phases')
  {
    ghost var s, log := m.View(), m.log[c];
    phases', schedule := phases, [];
    assert phases[c := phases[c]] == phases;
    match call {
      case Add(state) => schedule := AddToLog(m, phases, c, state, shares);
      case Restart => schedule := Restart(m, phases, c, shares);
      case Finish => phases', schedule := Finish(m, phases, c, shares);
    }
    NothingPerformed(s, m.chain.n, c, phases[c], phases'[c], call, log, time, m.validity);
  }

  /** A core's call at some time. */
  datatype Event<I, S> = Event(core: nat, call: Call<I, S>, time: int)

  /** The clock of no core goes backwards. */
  ghost predicate InOrder<I, S>(events: seq<Event<I, S>>, n: nat) {
    && (forall i {:trigger events[i]} :: 0 <= i < |events| ==> events[i].core < n && events[i].time >= 0)
    && forall i, j {:trigger events[i], events[j]} ::
         0 <= i < j < |events| && events[i].core == events[j].core ==> events[i].time <= events[j].time
  }

  /** No event from the `i`-th on is behind its core's clock. */
  ghost predicate NotBehind<I, S>(events: seq<Event<I, S>>, i: nat, clocks: seq<int>) {
    forall j {:trigger events[j]} :: i <= j < |events| ==>
      events[j].core < |clocks| && clocks[events[j].core] <= events[j].time
  }

  lemma StillNotBehind<I, S>(events: seq<Event<I, S>>, n: nat, i: nat, clocks: seq<int>, time: int)
    requires InOrder(events, n) && i < |events| && NotBehind(events, i, clocks) && time <= events[i].time
    ensures events[i].core < |clocks| && NotBehind(events, i + 1, clocks[events[i].core := time])
  {
    forall j | i + 1 <= j < |events| ensures events[j].core < |clocks|
      ensures clocks[events[i].core := time][events[j].core] <= events[j].time
    {
      assert events[i].core == events[j].core ==> events[i].time <= events[j].time;
    }
  }

  /** Whatever the cores do, in whatever interleaving of calls: the manager goes through a run of the
      protocol, so that each of its methods is called as it must be. */
  method Serve<I(==), S>(m: PktSetManager<I, S>, phases: seq<Phase<I>>, events: seq<Event<I, S>>,
                         ghost shares: seq<seq<int>>)
    returns (phases': seq<Phase<I>>, ghost schedule: seq<(nat, P.Action)>)
    requires Running(m, phases, shares) && InOrder(events, m.chain.n) && NotBehind(events, 0, m.clocks)
    modifies m.chain.cells, m.chain`layout, m.idToIndex`chains, m.idToIndex.buckets, m.idToIndex.next, m.idToIndex.ids
    modifies m.states, m`clocks, m.log
    ensures |phases'| == |phases| && Running(m, phases', shares)
    ensures forall x :: x in schedule ==> x.0 < |phases|
    ensures P.Run(old(StateOf(m, phases)), schedule) == StateOf(m, phases')
  {
    ghost var first := StateOf(m, phases);
    phases', schedule := phases, [];
    for i := 0 to |events|
      invariant |phases'| == |phases| && Running(m, phases', shares) && NotBehind(events, i, m.clocks)
      invariant forall x :: x in schedule ==> x.0 < |phases|
      invariant P.Run(first, schedule) == StateOf(m, phases')
    {
      var c := events[i].core;
      ghost var clocks := m.clocks;
      ghost var more;
      phases', more := Perform(m, phases', c, events[i].call, events[i].time, shares);
      StillNotBehind(events, |phases|, i, clocks, m.clocks[c]);
      RunBoth(first, schedule, more);
      schedule := schedule + more;
    }
  }

  /** The same for a new manager, whose cores have their shares of the indexes. */
  method ServeFirst<I(==), S>(hash: I -> nat, size: nat, validity: int, n: nat, blankId: I, blankState: S,
                              events: seq<Event<I, S>>)
    returns (m: PktSetManager<I, S>, phases: seq<Phase<I>>, ghost schedule: seq<(nat, P.Action)>)
    requires 0 < n <= size <= 0x8000_0000 && InOrder(events, n)
    ensures m.Valid() && m.chain.n == n && |phases| == n
    ensures Running(m, phases, SharesOf(n, size / n))
    ensures forall x :: x in schedule ==> x.0 < n
    ensures P.Run(P.Init(SharesOf(n, size / n)), schedule) == StateOf(m, phases)
  {
    m := new PktSetManager<I, S>(hash, size, validity, n, blankId, blankState);
    phases := seq(n, _ => Between);
    StartsRunning(m.View(), FlagsOf(m.log[..]), phases, n, m.chain.Count(), size / n);
    phases, schedule := Serve(m, phases, events, SharesOf(n, size / n));
  }

  function SharesOf(n: nat, block: nat): (shares: seq<seq<int>>)
    ensures |shares| == n
  {
    seq(n, c requires 0 <= c < n => Share(n, block, c))
  }

  lemma StartsRunning<I, S>(s: State<I, S>, flags: seq<bool>, phases: seq<Phase<I>>, n: nat, count: nat, block: nat)
    requires Coherent(s, n, count, seq(n, _ => 0)) && s.chains.owner == map[]
    requires block > 0 && |flags| == |phases| == n > 0
    requires s.layout == InitialLayout(n, block)
    requires forall c :: 0 <= c < n ==> !flags[c] && phases[c].Between?
    ensures Linked(s, flags, phases, n, count, seq(n, _ => 0), SharesOf(n, block))
    ensures Abstract(s.layout, flags, phases) == P.Init(SharesOf(n, block))
  {
    var shares := SharesOf(n, block);
    var a := Abstract(s.layout, flags, phases);
    forall c: nat | c < n ensures a.cores[c] == P.Init(shares).cores[c] {
      assert Free(c) in Lists(n) && Ring(c) in Lists(n);
    }
    assert Global in Lists(n);
    assert a.cores == P.Init(shares).cores;
    P.InitInv(shares);
  }
}
