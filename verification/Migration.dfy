/** The migration of flow partitions (deps/vigor/nf-lb/lb.c with the worker loop of deps/vigor/nf.c) as a
    step system on top of the barrier.

    Thread 0 is the load balancer, which sets `migration_sync`, waits at the barrier, writes `new_reta`
    entry by entry, resets the flag and waits at the barrier again.  The other threads are workers:
    they look at the flag, wait at the barrier twice when it is set, and otherwise read `new_reta`: at the
    index of a packet's partition, or at that of the partition to expire next, a counter of the worker's
    own that is reset one step too late.

    `versions`, `rounds` and `lookups` are history that no step reads: the complete tables so far, how
    often each thread has read at its counter, and what workers have read together with the number of
    migrations they had gone through. */
module Migration {
  import opened Arithmetic
  import B = Barrier

  datatype Phase =
    | Free           // outside a migration
    | First          // in the first barrier_wait
    | Writing(i: nat)
    | Unflagging     // migration_sync := 0
    | Second         // in the second barrier_wait

  datatype Action = Go | Start(target: seq<nat>) | Look | Read(p: nat) | Expire

  datatype Option<T> = None | Some(value: T)

  /** For a packet, or in one of the worker's rounds of expiration. */
  datatype Purpose = Forwarding | Expiring(round: nat)

  /** What a worker has read at index `p`: no value when that is not an index of the table. */
  datatype Lookup = Lookup(worker: nat, migrations: nat, purpose: Purpose, p: nat, value: Option<nat>)

  datatype State = State(b: B.State, flag: bool, table: seq<nat>, target: seq<nat>, phases: seq<Phase>,
                         toExpire: seq<nat>, versions: seq<seq<nat>>, rounds: seq<nat>, lookups: seq<Lookup>)

  function Init(n: nat, table: seq<nat>): State {
    State(B.Init(n), false, table, table, seq(n, _ => Free), seq(n, _ => 0), [table], seq(n, _ => 0), [])
  }

  predicate Shaped(s: State) {
    |s.phases| == |s.b.threads| == |s.toExpire| == |s.rounds| > 0
  }

  function EntryAt(table: seq<nat>, p: nat): Option<nat> {
    if p < |table| then Some(table[p]) else None
  }

  function Enter(s: State, t: nat, phase: Phase): State
    requires t < |s.phases|
  {
    s.(phases := s.phases[t := phase])
  }

  /** One step of thread `t`; an action that does not apply leaves the state as it is. */
  function Step(s: State, t: nat, a: Action): (r: State)
    requires Shaped(s) && t < |s.phases|
    ensures Shaped(r) && |r.phases| == |s.phases| && |r.table| == |s.table|
  {
    match s.phases[t]
    case Free => if t == 0 then Trigger(s, a) else Work(s, t, a)
    case First => Wait(s, t, if t == 0 then Writing(0) else Second)
    case Writing(i) =>
      if i < |s.table| && i < |s.target| then Enter(s.(table := s.table[i := s.target[i]]), t, Writing(i + 1))
      else Enter(s.(versions := s.versions + [s.table]), t, Unflagging)
    case Unflagging => Enter(s.(flag := false), t, Second)
    case Second => Wait(s, t, Free)
  }

  /** The load balancer decides to migrate to a new table, and sets the flag. */
  function Trigger(s: State, a: Action): State
    requires |s.phases| > 0
  {
    if a.Start? && |a.target| == |s.table| then Enter(s.(flag := true, target := a.target), 0, First) else s
  }

  function LookUp(s: State, t: nat, purpose: Purpose, p: nat): State
    requires Shaped(s) && t < |s.phases|
  {
    s.(lookups := s.lookups + [Lookup(t, s.b.threads[t].left / 2, purpose, p, EntryAt(s.table, p))])
  }

  /** The counter goes up to the number of partitions before it starts again. */
  function NextToExpire(p: nat, partitions: nat): nat {
    if p + 1 > partitions then 0 else p + 1
  }

  function Work(s: State, t: nat, a: Action): State
    requires Shaped(s) && t < |s.phases|
  {
    match a
    case Look => if s.flag then Enter(s, t, First) else s
    case Read(p) => LookUp(s, t, Forwarding, p)
    case Expire =>
      var p := s.toExpire[t];
      LookUp(s, t, Expiring(s.rounds[t]), p)
        .(toExpire := s.toExpire[t := NextToExpire(p, |s.table|)], rounds := s.rounds[t := s.rounds[t] + 1])
    case _ => s
  }

  /** A step inside `barrier_wait`; on returning the thread goes on to `next`. */
  function Wait(s: State, t: nat, next: Phase): State
    requires Shaped(s) && t < |s.phases|
  {
    var b := B.Step(s.b, t);
    var r := s.(b := b);
    if b.threads[t].pc.Outside? then Enter(r, t, next) else r
  }

  // ---- The invariant

  /** The number of barriers that thread `t` will have gone through at the end of its migration. */
  function Pledged(s: State, t: nat): nat
    requires Shaped(s) && t < |s.phases|
  {
    s.b.threads[t].left +
    match s.phases[t]
    case Free => 0
    case First => 2
    case _ => 1
  }

  /** Where thread `t` stands says how many barriers it has gone through, up to full migrations; and it
      takes part only in migrations that the load balancer carries out. */
  ghost predicate PhaseOk(s: State, t: nat)
    requires Shaped(s) && t < |s.phases|
  {
    var me, phase := s.b.threads[t], s.phases[t];
    && (phase.First? || phase.Second? || me.pc.Outside?)
    && (phase.Writing? || phase.Unflagging? ==> t == 0)
    && me.left % 2 == (if phase.Free? || phase.First? then 0 else 1)
    && Pledged(s, t) <= Pledged(s, 0)
  }

  /** The table is the latest version, except for the entries that are being overwritten. */
  ghost predicate TableOk(s: State)
    requires Shaped(s)
  {
    var phase, n := s.phases[0], |s.versions|;
    && n > 0 && |s.versions[n - 1]| == |s.table| == |s.target|
    && n == 1 + (s.b.threads[0].left + if phase.Unflagging? || phase.Second? then 1 else 0) / 2
    && if phase.Writing?
       then phase.i <= |s.table| && s.table == s.target[..phase.i] + s.versions[n - 1][phase.i..]
       else s.table == s.versions[n - 1] && (phase.Unflagging? || phase.Second? ==> s.table == s.target)
  }

  /** Every lookup has returned the entry of the version that the worker's migrations lead to, if that has
      the index, which is the round modulo the number of partitions plus one in an expiration. */
  ghost predicate LookupOk(s: State, r: Lookup) {
    && r.migrations < |s.versions|
    && r.value == EntryAt(s.versions[r.migrations], r.p)
    && (r.purpose.Expiring? ==> r.p == r.purpose.round % (|s.table| + 1))
  }

  predicate CounterOk(s: State, t: nat)
    requires Shaped(s) && t < |s.phases|
  {
    s.toExpire[t] == s.rounds[t] % (|s.table| + 1)
  }

  ghost predicate ReadsOk(s: State)
    requires Shaped(s)
  {
    && (forall t: nat {:trigger CounterOk(s, t)} :: t < |s.phases| ==> CounterOk(s, t))
    && (forall k {:trigger s.lookups[k]} :: 0 <= k < |s.lookups| ==> LookupOk(s, s.lookups[k]))
    && (forall v {:trigger s.versions[v]} :: 0 <= v < |s.versions| ==> |s.versions[v]| == |s.table|)
  }

  ghost predicate Inv(s: State) {
    && Shaped(s) && B.Inv(s.b)
    && (forall t: nat {:trigger PhaseOk(s, t)} :: t < |s.phases| ==> PhaseOk(s, t))
    && TableOk(s) && ReadsOk(s)
    && (s.flag <==> s.phases[0].First? || s.phases[0].Writing? || s.phases[0].Unflagging?)
  }

  lemma InitInv(n: nat, table: seq<nat>)
    requires n > 0
    ensures Inv(Init(n, table))
  {
    B.InitInv(n);
    RemainderUnique(0, |table| + 1, 0, 0);
  }

  /** While the load balancer writes the table, every worker is between its two barrier calls. */
  lemma WriterIsAlone(s: State, t: nat)
    requires Inv(s) && 0 < t < |s.phases| && (s.phases[0].Writing? || s.phases[0].Unflagging?)
    ensures s.phases[t].First? || s.phases[t].Second?
    ensures s.b.threads[t].began >= s.b.threads[0].left
  {
    B.NobodyLeavesEarly(s.b, 0, t);
    B.NobodyLeavesEarly(s.b, t, 0);
    assert PhaseOk(s, 0) && PhaseOk(s, t);
  }

  /** A worker that is processing packets has gone through exactly the completed migrations. */
  lemma FreeWorkerIsCurrent(s: State, t: nat)
    requires Inv(s) && 0 < t < |s.phases| && s.phases[t].Free?
    ensures s.b.threads[t].left / 2 == |s.versions| - 1
    ensures s.table == s.versions[|s.versions| - 1]
  {
    B.NobodyLeavesEarly(s.b, 0, t);
    B.NobodyLeavesEarly(s.b, t, 0);
    assert PhaseOk(s, 0) && PhaseOk(s, t);
  }

  /** A step other than a lookup that changes something. */
  ghost predicate Moves(s: State, t: nat, a: Action)
    requires Shaped(s)
  {
    t < |s.phases| && !a.Read? && !a.Expire? && Step(s, t, a) != s
  }

  /** A thread that is inside a barrier whose round has been completed can leave it. */
  lemma CanLeave(s: State, t: nat)
    requires Inv(s) && t < |s.phases| && s.b.threads[t].left < s.b.passed
    requires s.phases[t].First? || s.phases[t].Second?
    ensures Moves(s, t, Go)
  {
    assert B.ThreadOk(s.b, t);
    assert B.Step(s.b, t) != s.b;
  }

  /** While any thread takes part in a migration, some thread can move. */
  lemma SomeThreadCanMove(s: State, w: nat) returns (t: nat, a: Action)
    requires Inv(s) && w < |s.phases| && !s.phases[w].Free?
    ensures Moves(s, t, a)
  {
    t, a := 0, Go;
    assert PhaseOk(s, 0) && PhaseOk(s, w);
    if s.phases[0].Free? {
      B.NobodyLeavesEarly(s.b, 0, w);
      assert B.ThreadOk(s.b, 0) && B.ThreadOk(s.b, w);
      t := w;
      CanLeave(s, w);
    } else if s.phases[0].First? || s.phases[0].Second? {
      B.SomeThreadCanStep(s.b);
      var u: nat :| u < |s.b.threads| && B.Step(s.b, u) != s.b;
      t, a := MoveOfWaiting(s, u);
    }
  }

  lemma MoveOfWaiting(s: State, u: nat) returns (t: nat, a: Action)
    requires Inv(s) && (s.phases[0].First? || s.phases[0].Second?)
    requires u < |s.phases| && B.Step(s.b, u) != s.b
    ensures Moves(s, t, a)
  {
    assert PhaseOk(s, 0) && PhaseOk(s, u);
    t, a := u, Look;
    if s.phases[u].Free? && s.phases[0].Second? {
      FreeWorkerIsCurrent(s, u);
      assert B.ThreadOk(s.b, 0) && B.ThreadOk(s.b, u);
      t := 0;
      CanLeave(s, 0);
      a := Go;
    }
  }

  // ---- Steps keep the invariant

  lemma StepKeepsInv(s: State, t: nat, a: Action)
    requires Inv(s) && t < |s.phases|
    ensures Inv(Step(s, t, a))
  {
    assert PhaseOk(s, t);
    match s.phases[t]
    case Free =>
      if t == 0 {
        TriggerKeepsInv(s, a);
      } else {
        WorkKeepsInv(s, t, a);
      }
    case First => WaitKeepsInv(s, t, if t == 0 then Writing(0) else Second);
    case Writing(_) => WriteKeepsInv(s);
    case Unflagging =>
      var r := Step(s, t, a);
      ReadsStay(s, r);
      forall u: nat | u < |r.phases| ensures PhaseOk(r, u) {
        assert PhaseOk(s, u);
      }
    case Second => WaitKeepsInv(s, t, Free);
  }

  /** Steps without a lookup. */
  lemma ReadsStay(s: State, r: State)
    requires Shaped(s) && ReadsOk(s) && Shaped(r) && |r.phases| == |s.phases| && |r.table| == |s.table|
    requires r.lookups == s.lookups && r.toExpire == s.toExpire && r.rounds == s.rounds
    requires r.versions == s.versions || r.versions == s.versions + [r.table]
    ensures ReadsOk(r)
  {
    forall t: nat | t < |r.phases| ensures CounterOk(r, t) {
      assert CounterOk(s, t);
    }
    forall k | 0 <= k < |r.lookups| ensures LookupOk(r, r.lookups[k]) {
      assert LookupOk(s, s.lookups[k]);
    }
  }

  lemma OneMoreRound(round: nat, partitions: nat)
    ensures (round + 1) % (partitions + 1) == NextToExpire(round % (partitions + 1), partitions)
  {
    var n, q := partitions + 1, round / (partitions + 1);
    if round % n == partitions {
      assert n * (q + 1) == n * q + n;
      RemainderUnique(round + 1, n, q + 1, 0);
    } else {
      RemainderUnique(round + 1, n, q, round % n + 1);
    }
  }

  lemma WorkKeepsReads(s: State, t: nat, a: Action)
    requires Shaped(s) && ReadsOk(s) && t < |s.phases|
    requires s.b.threads[t].left / 2 < |s.versions| && s.table == s.versions[s.b.threads[t].left / 2]
    ensures ReadsOk(Work(s, t, a))
  {
    var r := Work(s, t, a);
    assert CounterOk(s, t);
    OneMoreRound(s.rounds[t], |s.table|);
    forall u: nat | u < |r.phases| ensures CounterOk(r, u) {
      assert CounterOk(s, u);
    }
    forall k | 0 <= k < |r.lookups| ensures LookupOk(r, r.lookups[k]) {
      assert k < |s.lookups| ==> LookupOk(s, s.lookups[k]);
    }
  }

  lemma TriggerKeepsInv(s: State, a: Action)
    requires Inv(s) && s.phases[0].Free?
    ensures Inv(Trigger(s, a))
  {
    var r := Trigger(s, a);
    assert PhaseOk(s, 0);
    ReadsStay(s, r);
    forall u: nat | u < |r.phases| ensures PhaseOk(r, u) {
      assert PhaseOk(s, u);
    }
  }

  lemma WorkKeepsInv(s: State, t: nat, a: Action)
    requires Inv(s) && 0 < t < |s.phases| && s.phases[t].Free?
    ensures Inv(Work(s, t, a))
  {
    var r := Work(s, t, a);
    FreeWorkerIsCurrent(s, t);
    WorkKeepsReads(s, t, a);
    B.NobodyLeavesEarly(s.b, t, 0);
    B.NobodyLeavesEarly(s.b, 0, t);
    assert PhaseOk(s, 0) && PhaseOk(s, t);
    forall u: nat | u < |r.phases| ensures PhaseOk(r, u) {
      assert PhaseOk(s, u);
    }
  }

  lemma WriteKeepsInv(s: State)
    requires Inv(s) && s.phases[0].Writing?
    ensures Inv(Step(s, 0, Go))
  {
    var r := Step(s, 0, Go);
    assert PhaseOk(s, 0);
    ReadsStay(s, r);
    forall u: nat | u < |r.phases| ensures PhaseOk(r, u) {
      assert PhaseOk(s, u);
    }
  }

  lemma WaitKeepsInv(s: State, t: nat, next: Phase)
    requires Inv(s) && t < |s.phases|
    requires next == match s.phases[t] case First => (if t == 0 then Writing(0) else Second) case _ => Free
    requires s.phases[t].First? || s.phases[t].Second?
    ensures Inv(Wait(s, t, next))
  {
    var r := Wait(s, t, next);
    ReadsStay(s, r);
    B.StepKeepsInv(s.b, t);
    B.StepMoves(s.b, t);
    assert PhaseOk(s, 0) && PhaseOk(s, t);
    WaitKeepsPhases(s, t, next);
  }

  lemma WaitKeepsPhases(s: State, t: nat, next: Phase)
    requires Inv(s) && t < |s.phases| && (s.phases[t].First? || s.phases[t].Second?)
    requires next == match s.phases[t] case First => (if t == 0 then Writing(0) else Second) case _ => Free
    ensures forall u: nat {:trigger PhaseOk(Wait(s, t, next), u)} :: u < |s.phases| ==> PhaseOk(Wait(s, t, next), u)
  {
    B.StepMoves(s.b, t);
    WaitPledges(s, t, next);
    assert PhaseOk(s, 0) && PhaseOk(s, t);
    forall u: nat | u < |s.phases| ensures PhaseOk(Wait(s, t, next), u) {
      assert PhaseOk(s, u);
    }
  }

  lemma WaitPledges(s: State, t: nat, next: Phase)
    requires Inv(s) && t < |s.phases| && (s.phases[t].First? || s.phases[t].Second?)
    requires next == match s.phases[t] case First => (if t == 0 then Writing(0) else Second) case _ => Free
    ensures forall u: nat {:trigger Pledged(Wait(s, t, next), u)} :: u < |s.phases| ==>
              Pledged(Wait(s, t, next), u) == Pledged(s, u)
  {
    B.StepMoves(s.b, t);
  }

  // ---- Runs

  function Run(s: State, schedule: seq<(nat, Action)>): (r: State)
    requires Shaped(s) && forall x :: x in schedule ==> x.0 < |s.phases|
    ensures Shaped(r) && |r.phases| == |s.phases| && |r.table| == |s.table|
    decreases |schedule|
  {
    if schedule == [] then s
    else
      var last := |schedule| - 1;
      assert schedule[last] in schedule;
      assert forall x :: x in schedule[..last] ==> x in schedule;
      Step(Run(s, schedule[..last]), schedule[last].0, schedule[last].1)
  }

  lemma {:induction false} RunKeepsInv(s: State, schedule: seq<(nat, Action)>)
    requires Inv(s) && forall x :: x in schedule ==> x.0 < |s.phases|
    ensures Inv(Run(s, schedule))
    decreases |schedule|
  {
    if schedule != [] {
      var last := |schedule| - 1;
      assert schedule[last] in schedule;
      assert forall x :: x in schedule[..last] ==> x in schedule;
      RunKeepsInv(s, schedule[..last]);
      StepKeepsInv(Run(s, schedule[..last]), schedule[last].0, schedule[last].1);
    }
  }

  /** In every interleaving, no worker reads a half-updated table: each lookup of an index of the table
      returns the entry of the complete table that belongs to the migrations the worker has gone through.
      The lookup of a packet leaves the table only when the packet's partition does, the lookup for an
      expiration exactly in every last of `|table| + 1` rounds. */
  lemma NoTornReads(n: nat, table: seq<nat>, schedule: seq<(nat, Action)>, k: nat)
    requires n > 0 && forall x :: x in schedule ==> x.0 < n
    requires k < |Run(Init(n, table), schedule).lookups|
    ensures var s := Run(Init(n, table), schedule);
            var r := s.lookups[k];
            && r.migrations < |s.versions| && |s.versions[r.migrations]| == |table|
            && (r.p < |table| ==> r.value == Some(s.versions[r.migrations][r.p]))
            && (r.p >= |table| ==> r.value == None)
            && (r.purpose.Expiring? ==> (r.value == None <==> r.purpose.round % (|table| + 1) == |table|))
  {
    InitInv(n, table);
    RunKeepsInv(Init(n, table), schedule);
    var s := Run(Init(n, table), schedule);
    assert LookupOk(s, s.lookups[k]);
  }

  /** After any run, a worker that looks up index `p` for a packet reads the entry of the latest complete table. */
  lemma ReadIsCurrent(n: nat, table: seq<nat>, schedule: seq<(nat, Action)>, t: nat, p: nat)
    requires 0 < t < n && forall x :: x in schedule ==> x.0 < n
    requires Run(Init(n, table), schedule).phases[t].Free?
    ensures var s := Run(Init(n, table), schedule);
            var latest := |s.versions| - 1;
            && latest >= 0
            && Step(s, t, Read(p)) ==
               s.(lookups := s.lookups + [Lookup(t, latest, Forwarding, p, EntryAt(s.versions[latest], p))])
  {
    InitInv(n, table);
    RunKeepsInv(Init(n, table), schedule);
    FreeWorkerIsCurrent(Run(Init(n, table), schedule), t);
  }

  /** A worker that goes through `rounds` rounds of expiration, and nothing else. */
  function Rounds(t: nat, rounds: nat): (schedule: seq<(nat, Action)>)
    ensures |schedule| == rounds && forall x :: x in schedule ==> x == (t, Expire)
  {
    seq(rounds, _ => (t, Expire))
  }

  /** What it reads in round `k`. */
  function RoundLookup(table: seq<nat>, t: nat, k: nat): Lookup {
    Lookup(t, 0, Expiring(k), k % (|table| + 1), EntryAt(table, k % (|table| + 1)))
  }

  ghost predicate OnlyRounds(s: State, n: nat, table: seq<nat>, t: nat, rounds: nat) {
    && Shaped(s) && |s.phases| == n > t && s.table == table && s.phases[t].Free? && s.b == B.Init(n)
    && s.toExpire[t] == rounds % (|table| + 1) && s.rounds[t] == rounds && |s.lookups| == rounds
    && forall k: nat {:trigger RoundLookup(table, t, k)} :: k < rounds ==> s.lookups[k] == RoundLookup(table, t, k)
  }

  lemma RoundKeeps(s: State, n: nat, table: seq<nat>, t: nat, rounds: nat)
    requires 0 < t && OnlyRounds(s, n, table, t, rounds)
    ensures OnlyRounds(Step(s, t, Expire), n, table, t, rounds + 1)
  {
    OneMoreRound(rounds, |table|);
  }

  lemma {:induction false} RunOfRounds(n: nat, table: seq<nat>, t: nat, rounds: nat)
    requires 0 < t < n
    ensures OnlyRounds(Run(Init(n, table), Rounds(t, rounds)), n, table, t, rounds)
  {
    if rounds > 0 {
      RunOfRounds(n, table, t, rounds - 1);
      var all := Rounds(t, rounds);
      assert all[..rounds - 1] == Rounds(t, rounds - 1) && all[rounds - 1] == (t, Expire);
      RoundKeeps(Run(Init(n, table), Rounds(t, rounds - 1)), n, table, t, rounds - 1);
    }
  }

  /** Every worker leaves the table: the last of its first `|table| + 1` rounds reads one entry past the
      end. */
  lemma ExpiryLeavesTable(n: nat, table: seq<nat>, t: nat)
    requires 0 < t < n
    ensures var s := Run(Init(n, table), Rounds(t, |table| + 1));
            |s.lookups| == |table| + 1 && s.lookups[|table|] == Lookup(t, 0, Expiring(|table|), |table|, None)
  {
    RunOfRounds(n, table, t, |table| + 1);
    RemainderUnique(|table|, |table| + 1, 0, |table|);
    assert RoundLookup(table, t, |table|) == Lookup(t, 0, Expiring(|table|), |table|, None);
  }

  // ---- What has been asked for

  /** The load balancer, outside a migration, asks for a table of the right length. */
  predicate IsRequest(s: State, x: (nat, Action)) {
    Shaped(s) && x.0 == 0 && x.1.Start? && s.phases[0].Free? && |x.1.target| == |s.table|
  }

  function Asked(s: State, x: (nat, Action)): seq<seq<nat>> {
    if IsRequest(s, x) then [x.1.target] else []
  }

  /** The tables that a schedule asks for, in order. */
  function Requests(s: State, schedule: seq<(nat, Action)>): (r: seq<seq<nat>>)
    requires Shaped(s) && forall x :: x in schedule ==> x.0 < |s.phases|
    decreases |schedule|
  {
    if schedule == [] then []
    else
      var last := |schedule| - 1;
      assert forall x :: x in schedule[..last] ==> x in schedule;
      Requests(s, schedule[..last]) + Asked(Run(s, schedule[..last]), schedule[last])
  }

  /** The versions are the tables that have been asked for, and the last of these is being written. */
  ghost predicate Obeys(s: State, table: seq<nat>, requests: seq<seq<nat>>)
    requires Shaped(s)
  {
    if s.phases[0].First? || s.phases[0].Writing?
    then requests != [] && s.target == requests[|requests| - 1]
         && [table] + requests == s.versions + [s.target]
    else s.versions == [table] + requests
  }

  lemma WrittenIsTarget(s: State)
    requires Inv(s) && s.phases[0].Writing? && s.phases[0].i >= |s.table|
    ensures s.table == s.target
  {
    assert s.target[..|s.table|] == s.target;
  }

  lemma StepObeys(s: State, x: (nat, Action), table: seq<nat>, requests: seq<seq<nat>>)
    requires Inv(s) && x.0 < |s.phases| && Obeys(s, table, requests)
    ensures Obeys(Step(s, x.0, x.1), table, requests + Asked(s, x))
  {
    assert PhaseOk(s, x.0);
    if x.0 != 0 {
      assert Asked(s, x) == [];
    } else if s.phases[0].Writing? && s.phases[0].i >= |s.table| {
      WrittenIsTarget(s);
    } else if IsRequest(s, x) {
      assert [table] + (requests + [x.1.target]) == [table] + requests + [x.1.target];
    }
  }

  lemma {:induction false} RunObeys(s: State, schedule: seq<(nat, Action)>, table: seq<nat>)
    requires Inv(s) && Obeys(s, table, []) && forall x :: x in schedule ==> x.0 < |s.phases|
    ensures Obeys(Run(s, schedule), table, Requests(s, schedule))
    decreases |schedule|
  {
    if schedule != [] {
      var last := |schedule| - 1;
      assert forall x :: x in schedule[..last] ==> x in schedule;
      RunObeys(s, schedule[..last], table);
      RunKeepsInv(s, schedule[..last]);
      assert schedule[last] in schedule;
      StepObeys(Run(s, schedule[..last]), schedule[last], table, Requests(s, schedule[..last]));
    }
  }

  /** In every interleaving, the complete tables are the first one and then exactly the ones that have been
      asked for, in order, except for the last one while it has not been written. */
  lemma VersionsAreRequests(n: nat, table: seq<nat>, schedule: seq<(nat, Action)>)
    requires n > 0 && forall x :: x in schedule ==> x.0 < n
    ensures var s, r := Run(Init(n, table), schedule), Requests(Init(n, table), schedule);
            if s.phases[0].First? || s.phases[0].Writing?
            then r != [] && s.versions == [table] + r[..|r| - 1] else s.versions == [table] + r
  {
    InitInv(n, table);
    RunObeys(Init(n, table), schedule, table);
    var s, r := Run(Init(n, table), schedule), Requests(Init(n, table), schedule);
    if s.phases[0].First? || s.phases[0].Writing? {
      assert ([table] + r)[..|r|] == [table] + r[..|r| - 1];
    }
  }

  /** Where in the schedule they have been asked for. */
  ghost predicate Scheduled(at: seq<nat>, requests: seq<seq<nat>>, schedule: seq<(nat, Action)>) {
    && |at| == |requests|
    && (forall v :: 0 <= v < |at| ==> at[v] < |schedule| && schedule[at[v]] == (0, Start(requests[v])))
    && forall v, u :: 0 <= v < u < |at| ==> at[v] < at[u]
  }

  lemma OneMoreScheduled(at: seq<nat>, requests: seq<seq<nat>>, schedule: seq<(nat, Action)>, s: State)
    returns (at': seq<nat>)
    requires schedule != [] && Scheduled(at, requests, schedule[..|schedule| - 1])
    ensures Scheduled(at', requests + Asked(s, schedule[|schedule| - 1]), schedule)
  {
    var last := |schedule| - 1;
    at' := if IsRequest(s, schedule[last]) then at + [last] else at;
    assert forall v :: 0 <= v < |at| ==> schedule[at[v]] == schedule[..last][at[v]];
  }

  lemma {:induction false} RequestsAreScheduled(s: State, schedule: seq<(nat, Action)>) returns (at: seq<nat>)
    requires Shaped(s) && forall x :: x in schedule ==> x.0 < |s.phases|
    ensures Scheduled(at, Requests(s, schedule), schedule)
    decreases |schedule|
  {
    at := [];
    if schedule != [] {
      var last := |schedule| - 1;
      assert forall x :: x in schedule[..last] ==> x in schedule;
      at := RequestsAreScheduled(s, schedule[..last]);
      at := OneMoreScheduled(at, Requests(s, schedule[..last]), schedule, Run(s, schedule[..last]));
    }
  }

  /** In every interleaving, the table is written only while all workers are between their two barrier
      calls, workers that process packets at the same time have gone through the same migrations, no
      worker waits for a migration that the load balancer does not carry out, and what has been
      written is the table that was last asked for. */
  lemma MigrationIsSafe(n: nat, table: seq<nat>, schedule: seq<(nat, Action)>, t: nat, u: nat)
    requires 0 < t < n && 0 < u < n && forall x :: x in schedule ==> x.0 < n
    ensures var s := Run(Init(n, table), schedule);
            && (s.phases[0].Writing? ==> s.phases[t].First? || s.phases[t].Second?)
            && (s.phases[t].Free? && s.phases[u].Free? ==> s.b.threads[t].left == s.b.threads[u].left)
            && Pledged(s, t) <= Pledged(s, 0)
            && (s.phases[0].Second? ==> [table] + Requests(Init(n, table), schedule) == s.versions)
            && (s.phases[0].Second? ==> s.table == s.versions[|s.versions| - 1])
  {
    InitInv(n, table);
    RunKeepsInv(Init(n, table), schedule);
    VersionsAreRequests(n, table, schedule);
    TrafficIsSafe(Run(Init(n, table), schedule), t, u);
  }

  lemma TrafficIsSafe(s: State, t: nat, u: nat)
    requires Inv(s) && 0 < t < |s.phases| && 0 < u < |s.phases|
    ensures s.phases[0].Writing? ==> s.phases[t].First? || s.phases[t].Second?
    ensures s.phases[t].Free? && s.phases[u].Free? ==> s.b.threads[t].left == s.b.threads[u].left
    ensures Pledged(s, t) <= Pledged(s, 0)
    ensures |s.versions| > 0 && (s.phases[0].Second? ==> s.table == s.versions[|s.versions| - 1])
  {
    assert PhaseOk(s, t) && PhaseOk(s, u);
    if s.phases[0].Writing? {
      WriterIsAlone(s, t);
    }
    if s.phases[t].Free? && s.phases[u].Free? {
      FreeWorkerIsCurrent(s, t);
      FreeWorkerIsCurrent(s, u);
    }
  }
}
