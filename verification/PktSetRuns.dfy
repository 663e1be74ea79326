/** What becomes of every partition while all cores call the packet set manager. */
module PktSetRuns {
  import opened PktSetManager
  import E = PktSetExpiry
  import opened PktSetSteps

  /** The runs of the partitions so far leave what the manager holds; none has an event later than the given
      time of its core. */
  ghost predicate AllLeave<I, S>(s: State<I, S>, n: nat, runs: seq<E.Run<I, S>>, times: seq<int>, validity: int) {
    && CM.UniqueKeys(s.table, s.chains) && |runs| == |times| == n
    && forall q: nat {:trigger Sets(s, n, q)} :: q < n ==> E.Leaves(runs[q], validity, times[q], Sets(s, n, q))
  }

  /** One call adds at most one event to the run of one partition. */
  lemma RunsGoOn<I, S>(s: State<I, S>, t: State<I, S>, n: nat, c: nat, f: Phase<I>, f': Phase<I>, call: Call<I, S>,
                       log: LogEntry<S>, time: int, validity: int, runs: seq<E.Run<I, S>>, times: seq<int>)
    returns (runs': seq<E.Run<I, S>>)
    requires AllLeave(s, n, runs, times, validity) && c < n && times[c] <= time
    requires Performed(s, t, n, c, f, f', call, log, time, validity)
    ensures AllLeave(t, n, runs', times[c := time], validity) && runs' == runs[c := runs'[c]]
    ensures runs'[c].events == runs[c].events + Told(f, call, log, time)
  {
    PerformedChanges(s, t, n, c, f, f', call, log, time, validity);
    var told, before, after := Told(f, call, log, time), Sets(s, n, c), Sets(t, n, c);
    assert E.Leaves(runs[c], validity, times[c], before);
    E.LaterToo(runs[c], validity, times[c], time, before);
    if told == [] {
      runs' := runs;
      assert runs[c].events + told == runs[c].events;
    } else {
      E.OneMoreEvent(runs[c], told[0], validity, before, after);
      runs' := runs[c := E.Extended(runs[c], told[0], after)];
      assert [told[0]] == told;
    }
    forall q: nat | q < n ensures E.Leaves(runs'[q], validity, times[c := time][q], Sets(t, n, q)) {
      assert E.Leaves(runs[q], validity, times[q], Sets(s, n, q));
    }
  }

  /** The events of partition `q` among the first `k` calls, from the phases `trail` and the logs of the calling
      cores at each call. */
  function Story<I, S>(events: seq<Event<I, S>>, trail: seq<seq<Phase<I>>>, logs: seq<LogEntry<S>>, q: nat, k: nat)
    : seq<E.Event<I, S>>
    requires k <= |events| && k <= |trail| && k <= |logs|
  {
    if k == 0 then []
    else
      var e := events[k - 1];
      Story(events, trail, logs, q, k - 1) +
      if e.core == q && q < |trail[k - 1]| then Told(trail[k - 1][q], e.call, logs[k - 1], e.time) else []
  }

  lemma {:induction false} StoryExtends<I, S>(events: seq<Event<I, S>>, trail: seq<seq<Phase<I>>>,
                                              logs: seq<LogEntry<S>>, q: nat, k: nat, phases: seq<Phase<I>>,
                                              log: LogEntry<S>)
    requires k <= |events| && k <= |trail| && k <= |logs|
    ensures Story(events, trail + [phases], logs + [log], q, k) == Story(events, trail, logs, q, k)
  {
    if k > 0 {
      StoryExtends(events, trail, logs, q, k - 1, phases, log);
    }
  }

  /** Each call moves one core from phase to phase. */
  ghost predicate Moves<I, S>(events: seq<Event<I, S>>, trail: seq<seq<Phase<I>>>, n: nat) {
    forall k: nat {:trigger trail[k]} :: k < |trail| ==>
      && |trail[k]| == n
      && (0 < k <= |events| && events[k - 1].core < n && |trail[k - 1]| == n ==>
            var c := events[k - 1].core;
            trail[k] == trail[k - 1][c := trail[k][c]])
  }

  /** The runs are those that the calls tell of. */
  ghost predicate AsTold<I, S>(events: seq<Event<I, S>>, trail: seq<seq<Phase<I>>>, logs: seq<LogEntry<S>>, k: nat,
                               runs: seq<E.Run<I, S>>)
    requires k <= |events| && k <= |trail| && k <= |logs|
  {
    forall q: nat {:trigger Story(events, trail, logs, q, k)} ::
      q < |runs| ==> runs[q].events == Story(events, trail, logs, q, k)
  }

  lemma StillAsTold<I, S>(events: seq<Event<I, S>>, trail: seq<seq<Phase<I>>>, logs: seq<LogEntry<S>>, k: nat,
                          runs: seq<E.Run<I, S>>, phases: seq<Phase<I>>, log: LogEntry<S>, runs': seq<E.Run<I, S>>)
    requires k < |events| && |trail| == |logs| == k && AsTold(events, trail, logs, k, runs)
    requires |runs'| == |runs| == |phases| && events[k].core < |runs|
    requires var c, e := events[k].core, events[k];
             runs' == runs[c := runs'[c]] && runs'[c].events == runs[c].events + Told(phases[c], e.call, log, e.time)
    ensures AsTold(events, trail + [phases], logs + [log], k + 1, runs')
  {
    forall q: nat | q < |runs'| ensures runs'[q].events == Story(events, trail + [phases], logs + [log], q, k + 1) {
      StoryExtends(events, trail, logs, q, k, phases, log);
      assert runs[q].events == Story(events, trail, logs, q, k);
    }
  }

  /** Whatever the cores do, in whatever interleaving of calls, as long as the clock of no core goes
      backwards: each partition goes through a run of its own, to which `PktSetExpiry.ForgottenWhenAlone`
      applies. */
  method Serve<I(==), S>(m: PktSetManager<I, S>, phases: seq<Phase<I>>, events: seq<Event<I, S>>,
                         ghost shares: seq<seq<int>>)
    returns (phases': seq<Phase<I>>, ghost trail: seq<seq<Phase<I>>>, ghost logs: seq<LogEntry<S>>,
             ghost runs: seq<E.Run<I, S>>)
    requires Running(m, phases, shares) && InOrder(events, m.chain.n) && NotBehind(events, 0, m.clocks)
    requires forall q: nat {:trigger m.PktSets(q)} :: q < m.chain.n ==> m.PktSets(q) == map[]
    modifies m.chain.cells, m.chain`layout, m.idToIndex`chains, m.idToIndex.buckets, m.idToIndex.next, m.idToIndex.ids
    modifies m.states, m`clocks, m.log
    ensures |phases'| == |phases| == |runs| && Running(m, phases', shares)
    ensures |trail| == |logs| == |events| && AsTold(events, trail, logs, |events|, runs)
    ensures Moves(events, trail + [phases'], |phases|) && (trail + [phases'])[0] == phases
    ensures forall q: nat {:trigger m.PktSets(q)} :: q < m.chain.n ==>
              E.RunOk(runs[q], m.validity) && m.PktSets(q) == E.Last(runs[q])
  {
    ghost var n := m.chain.n;
    ghost var times := m.clocks;
    phases', trail, logs := phases, [], [];
    runs := seq(n, _ => E.Run([], [map[]]));
    forall q: nat | q < n ensures E.Leaves(runs[q], m.validity, times[q], Sets(m.View(), n, q)) {
      assert m.PktSets(q) == map[];
    }
    for k := 0 to |events|
      invariant |phases'| == |phases| == n && Running(m, phases', shares)
      invariant NotBehind(events, k, m.clocks) && NotBehind(events, k, times)
      invariant |trail| == |logs| == k && AsTold(events, trail, logs, k, runs)
      invariant Moves(events, trail + [phases'], n) && (trail + [phases'])[0] == phases
      invariant AllLeave(m.View(), n, runs, times, m.validity)
    {
      phases', trail, logs, runs, times := ServeOne(m, phases', events, k, shares, trail, logs, runs, times);
    }
    forall q: nat | q < n ensures E.RunOk(runs[q], m.validity) && m.PktSets(q) == E.Last(runs[q]) {
      assert E.Leaves(runs[q], m.validity, times[q], Sets(m.View(), n, q));
    }
  }

  method ServeOne<I(==), S>(m: PktSetManager<I, S>, phases: seq<Phase<I>>, events: seq<Event<I, S>>, k: nat,
                            ghost shares: seq<seq<int>>, ghost trail: seq<seq<Phase<I>>>, ghost logs: seq<LogEntry<S>>,
                            ghost runs: seq<E.Run<I, S>>, ghost times: seq<int>)
    returns (phases': seq<Phase<I>>, ghost trail': seq<seq<Phase<I>>>, ghost logs': seq<LogEntry<S>>,
             ghost runs': seq<E.Run<I, S>>, ghost times': seq<int>)
    requires k < |events| && |phases| == m.chain.n && Running(m, phases, shares) && InOrder(events, m.chain.n)
    requires NotBehind(events, k, m.clocks) && NotBehind(events, k, times)
    requires |trail| == |logs| == k && AsTold(events, trail, logs, k, runs)
    requires Moves(events, trail + [phases], m.chain.n)
    requires AllLeave(m.View(), m.chain.n, runs, times, m.validity)
    modifies m.chain.cells, m.chain`layout, m.idToIndex`chains, m.idToIndex.buckets, m.idToIndex.next, m.idToIndex.ids
    modifies m.states, m`clocks, m.log
    ensures |phases'| == |phases| && Running(m, phases', shares)
    ensures NotBehind(events, k + 1, m.clocks) && NotBehind(events, k + 1, times')
    ensures trail' == trail + [phases] && |logs'| == k + 1 && AsTold(events, trail', logs', k + 1, runs')
    ensures Moves(events, trail' + [phases'], m.chain.n)
    ensures AllLeave(m.View(), m.chain.n, runs', times', m.validity)
  {
    var e := events[k];
    ghost var s, n, clocks, log := m.View(), m.chain.n, m.clocks, m.log[e.core];
    ghost var schedule;
    phases', schedule := Perform(m, phases, e.core, e.call, e.time, shares);
    StillNotBehind(events, n, k, clocks, m.clocks[e.core]);
    StillNotBehind(events, n, k, times, e.time);
    times' := times[e.core := e.time];
    runs' := RunsGoOn(s, m.View(), n, e.core, phases[e.core], phases'[e.core], e.call, log, e.time, m.validity, runs,
                      times);
    StillAsTold(events, trail, logs, k, runs, phases, log, runs');
    trail', logs' := trail + [phases], logs + [log];
    OneMoreMove(events, trail', phases', n, k);
  }

  lemma OneMoreMove<I, S>(events: seq<Event<I, S>>, trail: seq<seq<Phase<I>>>, phases: seq<Phase<I>>, n: nat, k: nat)
    requires k < |events| && |trail| == k + 1 && Moves(events, trail, n) && events[k].core < n
    requires |phases| == n && phases == trail[k][events[k].core := phases[events[k].core]]
    ensures Moves(events, trail + [phases], n)
  {
    var all := trail + [phases];
    forall i: nat | i < |all| ensures |all[i]| == n &&
      (0 < i <= |events| && events[i - 1].core < n ==>
         all[i] == all[i - 1][events[i - 1].core := all[i][events[i - 1].core]])
    {
      assert i <= k ==> all[i] == trail[i];
      assert 0 < i ==> all[i - 1] == trail[i - 1];
    }
  }
}
