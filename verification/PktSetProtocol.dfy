/** The log-then-commit protocol of the packet set manager (src/pkt-set-manager.c) as a step system of
    all cores.

    While a core handles a packet of an unknown packet set it may log that the packet set is to be
    added, provided that the core's own free list is not empty; when the handler's transaction has
    committed, it allocates an index, from its own free list or else globally.  One step is one locked
    section of the allocator, or one update of lists that only the core itself touches. */
module PktSetProtocol {
  datatype Pc =
    | Idle              // between packets
    | InHandler         // inside the handler of an unknown packet set
    | Committing        // add_pkt_set_commit
    | Global            // allocation from the global free list
    | Holding(x: int)   // an index taken from a free list, not yet on the ring
    | Releasing(x: int) // an index taken from the ring, not yet on the free list

  datatype Core = Core(pc: Pc, free: seq<int>, ring: seq<int>, logged: bool)

  datatype State = State(cores: seq<Core>, global: seq<int>)

  datatype Action = Begin | Log | Retry | Finish | Expire | Touch(k: nat) | Go

  function Init(shares: seq<seq<int>>): State {
    State(seq(|shares|, i requires 0 <= i < |shares| => Core(Idle, shares[i], [], false)), [])
  }

  /** A step that changes only the core's own lists; an action that does not apply changes nothing. */
  function OwnStep(me: Core, a: Action): Core {
    match me.pc
    case Idle =>
      if a.Begin? then me.(pc := InHandler, logged := false)
      else if a.Expire? && me.ring != [] then me.(pc := Releasing(me.ring[0]), ring := me.ring[1..])
      else if a.Touch? && a.k < |me.ring| then me.(ring := me.ring[..a.k] + me.ring[a.k + 1..] + [me.ring[a.k]])
      else me
    case InHandler =>
      if a.Log? && me.free != [] then me.(logged := true)
      else if a.Retry? then me.(logged := false)
      else if a.Finish? then me.(pc := Committing)
      else me
    case Committing =>
      if !me.logged then me.(pc := Idle)
      else if me.free != [] then me.(pc := Holding(me.free[0]), free := me.free[1..])
      else me.(pc := Global)
    case Global => me
    case Holding(x) => me.(pc := Idle, ring := me.ring + [x])
    case Releasing(x) => me.(pc := Idle, free := [x] + me.free)
  }

  function Put(s: State, c: nat, core: Core): State
    requires c < |s.cores|
  {
    s.(cores := s.cores[c := core])
  }

  /** One step of core `c`. */
  function Step(s: State, c: nat, a: Action): (r: State)
    requires c < |s.cores|
    ensures |r.cores| == |s.cores|
  {
    if s.cores[c].pc.Global? then AllocateGlobally(s, c) else Put(s, c, OwnStep(s.cores[c], a))
  }

  /** The global allocation: when the global list is empty, the first free index of every core moves to
      it. */
  function AllocateGlobally(s: State, c: nat): (r: State)
    requires c < |s.cores|
    ensures |r.cores| == |s.cores|
  {
    var t := if s.global == [] then Refilled(s, |s.cores|) else s;
    if t.global == [] then Put(t, c, t.cores[c].(pc := Idle))
    else Put(t.(global := t.global[1..]), c, t.cores[c].(pc := Holding(t.global[0])))
  }

  function Refilled(s: State, i: nat): (r: State)
    requires i <= |s.cores|
    ensures |r.cores| == |s.cores|
  {
    if i == 0 then s
    else
      var t := Refilled(s, i - 1);
      var core := t.cores[i - 1];
      if core.free == [] then t
      else Put(t.(global := [core.free[0]] + t.global), i - 1, core.(free := core.free[1..]))
  }

  // ---- The invariant

  /** The indexes of a core: free, allocated, or in the core's hands. */
  function Owned(core: Core): multiset<int> {
    multiset(core.free) + multiset(core.ring) +
    if core.pc.Holding? || core.pc.Releasing? then multiset{core.pc.x} else multiset{}
  }

  /** A core that has logged an addition still has a free index, and it has exactly the indexes of its
      share. */
  ghost predicate CoreOk(core: Core, share: seq<int>) {
    && (core.logged && (core.pc.InHandler? || core.pc.Committing?) ==> core.free != [])
    && !core.pc.Global?
    && Owned(core) == multiset(share)
  }

  ghost predicate Inv(s: State, shares: seq<seq<int>>) {
    && |s.cores| == |shares| && s.global == []
    && forall c {:trigger CoreOk(s.cores[c], shares[c])} :: 0 <= c < |shares| ==> CoreOk(s.cores[c], shares[c])
  }

  lemma InitInv(shares: seq<seq<int>>)
    ensures Inv(Init(shares), shares)
  {
  }

  lemma SplitAt(s: seq<int>, k: nat)
    requires k < |s|
    ensures multiset(s[..k] + s[k + 1..]) + multiset{s[k]} == multiset(s)
  {
    assert s == s[..k] + [s[k]] + s[k + 1..];
  }

  lemma TakeFirst(s: seq<int>)
    requires s != []
    ensures multiset(s[1..]) + multiset{s[0]} == multiset(s)
  {
    assert s == [s[0]] + s[1..];
  }

  lemma MoveToEnd(s: seq<int>, k: nat)
    requires k < |s|
    ensures multiset(s[..k] + s[k + 1..] + [s[k]]) == multiset(s)
  {
    SplitAt(s, k);
    assert multiset(s[..k] + s[k + 1..] + [s[k]]) == multiset(s[..k] + s[k + 1..]) + multiset{s[k]};
  }

  lemma TouchStepOk(me: Core, k: nat, share: seq<int>)
    requires CoreOk(me, share) && me.pc.Idle? && k < |me.ring|
    ensures CoreOk(me.(ring := me.ring[..k] + me.ring[k + 1..] + [me.ring[k]]), share)
  {
    MoveToEnd(me.ring, k);
  }

  lemma ExpireStepOk(me: Core, share: seq<int>)
    requires CoreOk(me, share) && me.pc.Idle? && me.ring != []
    ensures CoreOk(me.(pc := Releasing(me.ring[0]), ring := me.ring[1..]), share)
  {
    TakeFirst(me.ring);
  }

  lemma IdleStepOk(me: Core, a: Action, share: seq<int>)
    requires CoreOk(me, share) && me.pc.Idle?
    ensures CoreOk(OwnStep(me, a), share)
  {
    if a.Touch? && a.k < |me.ring| {
      TouchStepOk(me, a.k, share);
    } else if a.Expire? && me.ring != [] {
      ExpireStepOk(me, share);
    }
  }

  lemma CommitStepOk(me: Core, a: Action, share: seq<int>)
    requires CoreOk(me, share) && me.pc.Committing?
    ensures CoreOk(OwnStep(me, a), share)
  {
    if me.free != [] {
      TakeFirst(me.free);
    }
  }

  /** The index in the core's hands goes on the ring or on the free list. */
  lemma PutStepOk(me: Core, a: Action, share: seq<int>)
    requires CoreOk(me, share) && (me.pc.Holding? || me.pc.Releasing?)
    ensures CoreOk(OwnStep(me, a), share)
  {
    if me.pc.Holding? {
      assert multiset(me.ring + [me.pc.x]) == multiset(me.ring) + multiset{me.pc.x};
    } else {
      assert multiset([me.pc.x] + me.free) == multiset{me.pc.x} + multiset(me.free);
    }
  }

  lemma OwnStepOk(me: Core, a: Action, share: seq<int>)
    requires CoreOk(me, share)
    ensures CoreOk(OwnStep(me, a), share)
  {
    match me.pc
    case Idle => IdleStepOk(me, a, share);
    case InHandler =>
    case Committing => CommitStepOk(me, a, share);
    case _ => PutStepOk(me, a, share);
  }

  lemma StepKeepsInv(s: State, c: nat, a: Action, shares: seq<seq<int>>)
    requires Inv(s, shares) && c < |s.cores|
    ensures Inv(Step(s, c, a), shares)
  {
    var r := Step(s, c, a);
    assert CoreOk(s.cores[c], shares[c]);
    OwnStepOk(s.cores[c], a, shares[c]);
    forall d | 0 <= d < |shares| ensures CoreOk(r.cores[d], shares[d]) {
      assert CoreOk(s.cores[d], shares[d]);
    }
  }

  // ---- Runs

  function Run(s: State, schedule: seq<(nat, Action)>): (r: State)
    requires forall x :: x in schedule ==> x.0 < |s.cores|
    ensures |r.cores| == |s.cores|
    decreases |schedule|
  {
    if schedule == [] then s
    else
      var last := |schedule| - 1;
      assert schedule[last] in schedule;
      assert forall x :: x in schedule[..last] ==> x in schedule;
      Step(Run(s, schedule[..last]), schedule[last].0, schedule[last].1)
  }

  lemma {:induction false} RunKeepsInv(s: State, schedule: seq<(nat, Action)>, shares: seq<seq<int>>)
    requires Inv(s, shares) && forall x :: x in schedule ==> x.0 < |s.cores|
    ensures Inv(Run(s, schedule), shares)
    decreases |schedule|
  {
    if schedule != [] {
      var last := |schedule| - 1;
      assert schedule[last] in schedule;
      assert forall x :: x in schedule[..last] ==> x in schedule;
      RunKeepsInv(s, schedule[..last], shares);
      StepKeepsInv(Run(s, schedule[..last]), schedule[last].0, schedule[last].1, shares);
    }
  }

  /** In every interleaving of the cores: a core that commits a logged addition finds a free index of its
      own, no core ever turns to the global list, and each core keeps exactly the indexes of its
      share. */
  lemma CommitsAreLocal(shares: seq<seq<int>>, schedule: seq<(nat, Action)>, c: nat)
    requires c < |shares| && forall x :: x in schedule ==> x.0 < |shares|
    ensures var s := Run(Init(shares), schedule);
            && (s.cores[c].pc.Committing? && s.cores[c].logged ==> s.cores[c].free != [])
            && !s.cores[c].pc.Global? && s.global == []
            && Owned(s.cores[c]) == multiset(shares[c])
  {
    InitInv(shares);
    RunKeepsInv(Init(shares), schedule, shares);
    assert CoreOk(Run(Init(shares), schedule).cores[c], shares[c]);
  }
}
