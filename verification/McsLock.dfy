/** The MCS queue lock of src/include/lock.h as a step system under sequential consistency.

    Every memory access of `mcslock_lock` and `mcslock_unlock` is one step.  Any number of
    threads run; a schedule is an arbitrary sequence of thread identifiers.  Each thread owns one
    queue node, named by the thread's identifier; `NULL` is the null pointer.

    `arrivals`, `entered`, `released` and a thread's `ticket` are history that no step reads: the
    order in which threads swapped themselves onto the tail, the order in which they entered the
    critical section, the number of releases, and the thread's place among the arrivals. */
module McsLock {

  const NULL: int := -1

  /** The instruction a thread executes next. */
  datatype Pc =
    | Idle               // lock: locked := 0
    | ClearNext          // lock: next := NULL
    | Swap               // lock: prev := swap(tail, self)
    | Link               // lock: prev.next := self
    | Spin               // lock: while !locked
    | Holding(at: Stage) // in the critical section or releasing

  datatype Stage =
    | Critical   // inside the critical section; the next step enters unlock
    | TestNext   // unlock: if !next
    | Cas        // unlock: compare-and-swap(tail, self, NULL)
    | AwaitNext  // unlock: while !next
    | Grant      // unlock: read next
    | Wake       // unlock: next.locked := 1

  datatype Thread = Thread(pc: Pc, locked: bool, next: int, prev: int, succ: int, ticket: int)

  datatype State = State(tail: int, threads: seq<Thread>,
                         arrivals: seq<int>, entered: seq<int>, released: nat)

  function Init(n: nat): State {
    State(NULL, seq(n, _ => Thread(Idle, false, NULL, NULL, NULL, NULL)), [], [], 0)
  }

  /** One step of thread `t`.  A spinning thread whose condition is false leaves the state as it is,
      and a pointer that names no node makes the step do nothing. */
  function Step(s: State, t: nat): State
    requires t < |s.threads|
  {
    var me := s.threads[t];
    match me.pc
    case Idle => Put(s, t, me.(pc := ClearNext, locked := false))
    case ClearNext => Put(s, t, me.(pc := Swap, next := NULL))
    case Swap => SwapTail(s, t)
    case Link => if 0 <= me.prev < |s.threads| then LinkBehind(s, t, me.prev) else s
    case Spin => if me.locked then Enter(s, t) else s
    case Holding(Critical) => Put(s, t, me.(pc := Holding(TestNext)))
    case Holding(TestNext) => Put(s, t, me.(pc := Holding(if me.next == NULL then Cas else Grant)))
    case Holding(Cas) => if s.tail == t then ReleaseLast(s, t) else Put(s, t, me.(pc := Holding(AwaitNext)))
    case Holding(AwaitNext) => if me.next != NULL then Put(s, t, me.(pc := Holding(Grant))) else s
    case Holding(Grant) => Put(s, t, me.(pc := Holding(Wake), succ := me.next))
    case Holding(Wake) => if 0 <= me.succ < |s.threads| then ReleaseTo(s, t, me.succ) else s
  }

  function SwapTail(s: State, t: nat): State
    requires t < |s.threads|
  {
    var me := s.threads[t].(prev := s.tail, ticket := |s.arrivals|);
    var arrived := s.(tail := t, arrivals := s.arrivals + [t]);
    if s.tail != NULL then Put(arrived, t, me.(pc := Link))
    else Put(arrived.(entered := s.entered + [t]), t, me.(pc := Holding(Critical)))
  }

  function LinkBehind(s: State, t: nat, prev: nat): State
    requires t < |s.threads| && prev < |s.threads|
  {
    var linked := Put(s, prev, s.threads[prev].(next := t));
    Put(linked, t, linked.threads[t].(pc := Spin))
  }

  function Enter(s: State, t: nat): State
    requires t < |s.threads|
  {
    Put(s.(entered := s.entered + [t]), t, s.threads[t].(pc := Holding(Critical)))
  }

  function ReleaseLast(s: State, t: nat): State
    requires t < |s.threads|
  {
    Put(s.(tail := NULL, released := s.released + 1), t, s.threads[t].(pc := Idle))
  }

  function ReleaseTo(s: State, t: nat, succ: nat): State
    requires t < |s.threads| && succ < |s.threads|
  {
    var woken := Put(s.(released := s.released + 1), succ, s.threads[succ].(locked := true));
    Put(woken, t, woken.threads[t].(pc := Idle))
  }

  function Put(s: State, t: nat, me: Thread): State
    requires t < |s.threads|
  {
    s.(threads := s.threads[t := me])
  }

  /** The state after thread `schedule[0]` steps, then `schedule[1]`, and so on. */
  function Run(s: State, schedule: seq<nat>): (r: State)
    requires forall t :: t in schedule ==> t < |s.threads|
    ensures |r.threads| == |s.threads|
    decreases |schedule|
  {
    if schedule == [] then s
    else
      var last := |schedule| - 1;
      assert schedule[last] in schedule;
      assert forall t :: t in schedule[..last] ==> t in schedule;
      Step(Run(s, schedule[..last]), schedule[last])
  }

  predicate Queued(pc: Pc) {
    pc.Holding? || pc.Link? || pc.Spin?
  }

  /** The queue is `arrivals[released..]`, oldest first: `Arrived` describes one place in it. */
  ghost predicate Arrived(s: State, i: int) {
    && 0 <= i < |s.arrivals|
    && 0 <= s.arrivals[i] < |s.threads|
    && Queued(s.threads[s.arrivals[i]].pc)
    && s.threads[s.arrivals[i]].ticket == i
  }

  ghost predicate Membership(s: State) {
    && s.released <= |s.arrivals|
    && (forall i {:trigger Arrived(s, i)} :: s.released <= i < |s.arrivals| ==> Arrived(s, i))
    && s.tail == (if s.released == |s.arrivals| then NULL else s.arrivals[|s.arrivals| - 1])
  }

  /** Some thread is between acquiring and releasing. */
  predicate Granted(s: State) {
    |s.entered| > s.released
  }

  /** What holds of a queued thread, by its place in the queue and its program counter: only the
      head holds the lock or has been granted it, and `next` is set exactly when the successor has
      linked itself. */
  ghost predicate Local(s: State, t: nat)
    requires t < |s.threads|
  {
    var me := s.threads[t];
    && s.released <= me.ticket < |s.arrivals|
    && s.arrivals[me.ticket] == t
    && (if me.ticket > s.released then (me.pc.Link? || me.pc.Spin?) && !me.locked
        else if Granted(s) then me.pc.Holding?
        else me.pc.Spin? && me.locked)
    && (me.pc.Link? ==> me.ticket > s.released && me.prev == s.arrivals[me.ticket - 1])
    && me.next == (if SuccessorLinked(s, me.ticket) then s.arrivals[me.ticket + 1] else NULL)
    && (me.pc == Holding(AwaitNext) ==> me.ticket + 1 < |s.arrivals|)
    && (me.pc == Holding(Grant) ==> me.next != NULL)
    && (me.pc == Holding(Wake) ==> me.next != NULL && me.succ == me.next)
  }

  predicate SuccessorLinked(s: State, ticket: int) {
    && 0 <= ticket && ticket + 1 < |s.arrivals|
    && var after := s.arrivals[ticket + 1];
       0 <= after < |s.threads| && s.threads[after].pc.Spin?
  }

  /** What holds of any thread. */
  ghost predicate Ready(s: State, t: int)
    requires 0 <= t < |s.threads|
  {
    && (Queued(s.threads[t].pc) ==> Local(s, t))
    && (s.threads[t].pc.Swap? ==> !s.threads[t].locked && s.threads[t].next == NULL)
    && (s.threads[t].pc.ClearNext? ==> !s.threads[t].locked)
  }

  ghost predicate AllReady(s: State) {
    forall t {:trigger Ready(s, t)} :: 0 <= t < |s.threads| ==> Ready(s, t)
  }

  ghost predicate History(s: State) {
    && s.released <= |s.entered| <= s.released + 1
    && s.entered <= s.arrivals
  }

  ghost predicate Inv(s: State) {
    Membership(s) && AllReady(s) && History(s)
  }

  /** A step that changes only the stepping thread's own node, and neither its place in the queue
      nor its pointer. */
  lemma OwnKept(s: State, t: nat, me: Thread)
    requires t < |s.threads| && Inv(s)
    requires me.ticket == s.threads[t].ticket
    requires Queued(me.pc) == Queued(s.threads[t].pc)
    requires !me.pc.Spin? && !s.threads[t].pc.Spin? && Ready(Put(s, t, me), t)
    ensures Inv(Put(s, t, me))
  {
    var s' := Put(s, t, me);
    forall i | s.released <= i < |s.arrivals| ensures Arrived(s', i) {
      assert Arrived(s, i);
    }
    forall u | 0 <= u < |s.threads| ensures Ready(s', u) {
      assert Ready(s, u);
    }
  }

  lemma SwapKept(s: State, t: nat)
    requires t < |s.threads| && Inv(s) && s.threads[t].pc.Swap?
    ensures Inv(SwapTail(s, t))
  {
    var s' := SwapTail(s, t);
    assert Ready(s, t);
    forall i | s.released <= i < |s'.arrivals| ensures Arrived(s', i) {
      assert i < |s.arrivals| ==> Arrived(s, i);
    }
    if s.released < |s.arrivals| {
      assert Arrived(s, |s.arrivals| - 1);
      assert Ready(s, s.tail);
    }
    forall u | 0 <= u < |s.threads| ensures Ready(s', u) {
      assert Ready(s, u);
    }
  }

  lemma LinkKept(s: State, t: nat)
    requires t < |s.threads| && Inv(s) && s.threads[t].pc.Link?
    ensures 0 <= s.threads[t].prev < |s.threads|
    ensures Inv(LinkBehind(s, t, s.threads[t].prev))
  {
    assert Ready(s, t);
    var prev := s.threads[t].prev;
    assert Arrived(s, s.threads[t].ticket - 1);
    var s' := LinkBehind(s, t, prev);
    assert s'.threads[prev] == s.threads[prev].(next := t);
    assert s'.threads[t] == s.threads[t].(pc := Spin);
    forall i | s.released <= i < |s.arrivals| ensures Arrived(s', i) {
      assert Arrived(s, i);
    }
    forall u | 0 <= u < |s.threads| ensures Ready(s', u) {
      assert Ready(s, u);
      if Queued(s.threads[u].pc) && s.threads[u].ticket + 1 < |s.arrivals| {
        assert Arrived(s, s.threads[u].ticket + 1);
      }
    }
  }

  lemma EnterKept(s: State, t: nat)
    requires t < |s.threads| && Inv(s) && s.threads[t].pc.Spin? && s.threads[t].locked
    ensures Inv(Enter(s, t))
  {
    assert Ready(s, t);
    var s' := Enter(s, t);
    forall i | s.released <= i < |s.arrivals| ensures Arrived(s', i) {
      assert Arrived(s, i);
    }
    forall u | 0 <= u < |s.threads| ensures Ready(s', u) {
      assert Ready(s, u);
      if Queued(s.threads[u].pc) && s.threads[u].ticket + 1 < |s.arrivals| {
        assert Arrived(s, s.threads[u].ticket + 1);
      }
    }
  }

  lemma ReleaseLastKept(s: State, t: nat)
    requires t < |s.threads| && Inv(s) && s.threads[t].pc == Holding(Cas) && s.tail == t
    ensures Inv(ReleaseLast(s, t))
  {
    assert Ready(s, t) && Arrived(s, |s.arrivals| - 1);
    var s' := ReleaseLast(s, t);
    forall u | 0 <= u < |s.threads| ensures Ready(s', u) {
      assert Ready(s, u);
    }
  }

  lemma ReleaseToKept(s: State, t: nat)
    requires t < |s.threads| && Inv(s) && s.threads[t].pc == Holding(Wake)
    ensures 0 <= s.threads[t].succ < |s.threads|
    ensures Inv(ReleaseTo(s, t, s.threads[t].succ))
  {
    assert Ready(s, t);
    var succ := s.threads[t].succ;
    assert Arrived(s, s.released + 1) && s.arrivals[s.released + 1] == succ;
    var s' := ReleaseTo(s, t, succ);
    forall i | s'.released <= i < |s.arrivals| ensures Arrived(s', i) {
      assert Arrived(s, i);
    }
    forall u | 0 <= u < |s.threads| ensures Ready(s', u) {
      assert Ready(s, u);
      if Queued(s.threads[u].pc) && s.threads[u].ticket + 1 < |s.arrivals| {
        assert Arrived(s, s.threads[u].ticket + 1);
      }
    }
  }

  /** The invariant is inductive: every step of every thread keeps it. */
  lemma StepKeepsInv(s: State, t: nat)
    requires t < |s.threads| && Inv(s)
    ensures Inv(Step(s, t))
  {
    var me := s.threads[t];
    assert Ready(s, t);
    match me.pc
    case Idle => OwnKept(s, t, me.(pc := ClearNext, locked := false));
    case ClearNext => OwnKept(s, t, me.(pc := Swap, next := NULL));
    case Swap => SwapKept(s, t);
    case Link => LinkKept(s, t);
    case Spin => if me.locked { EnterKept(s, t); }
    case Holding(at) =>
      if at.Cas? && s.tail == t {
        ReleaseLastKept(s, t);
      } else if at.Wake? {
        ReleaseToKept(s, t);
      } else if at != AwaitNext || me.next != NULL {
        if at.Cas? { assert Arrived(s, |s.arrivals| - 1); }
        OwnKept(s, t, Step(s, t).threads[t]);
      }
  }

  lemma {:induction false} RunKeepsInv(n: nat, schedule: seq<nat>)
    requires forall t :: t in schedule ==> t < n
    ensures Inv(Run(Init(n), schedule))
    decreases |schedule|
  {
    if schedule != [] {
      var last := |schedule| - 1;
      assert schedule[last] in schedule;
      assert forall t :: t in schedule[..last] ==> t in schedule;
      RunKeepsInv(n, schedule[..last]);
      StepKeepsInv(Run(Init(n), schedule[..last]), schedule[last]);
    }
  }

  /** Mutual exclusion: in every interleaving of any number of threads at most one thread is
      between acquiring and releasing the lock. */
  lemma MutualExclusion(n: nat, schedule: seq<nat>, t: nat, u: nat)
    requires forall t :: t in schedule ==> t < n
    requires t < n && u < n
    requires Run(Init(n), schedule).threads[t].pc.Holding?
    requires Run(Init(n), schedule).threads[u].pc.Holding?
    ensures t == u
  {
    RunKeepsInv(n, schedule);
    var s := Run(Init(n), schedule);
    assert Ready(s, t) && Ready(s, u);
  }

  /** First come, first served: threads enter the critical section in exactly the order of their
      swaps on the tail, and at most one of the entered has not released. */
  lemma FirstComeFirstServed(n: nat, schedule: seq<nat>)
    requires forall t :: t in schedule ==> t < n
    ensures var s := Run(Init(n), schedule);
            s.entered <= s.arrivals && s.released <= |s.entered| <= s.released + 1
  {
    RunKeepsInv(n, schedule);
  }

  /** Scheduling `t` makes a difference: it is not spinning in vain. */
  predicate Moves(s: State, t: int) {
    0 <= t < |s.threads| && Step(s, t) != s
  }

  /** Deadlock freedom: whenever the lock is taken, the head of the queue can move, or it waits for
      its successor to link itself and that successor can move. */
  lemma SomeThreadCanStep(n: nat, schedule: seq<nat>)
    requires forall t :: t in schedule ==> t < n
    requires Run(Init(n), schedule).tail != NULL
    ensures var s := Run(Init(n), schedule);
            && s.released < |s.arrivals|
            && (Moves(s, s.arrivals[s.released])
                || (&& s.released + 1 < |s.arrivals|
                    && 0 <= s.arrivals[s.released] < n
                    && s.threads[s.arrivals[s.released]].pc == Holding(AwaitNext)
                    && Moves(s, s.arrivals[s.released + 1])))
  {
    RunKeepsInv(n, schedule);
    HeadOrSuccessorMoves(Run(Init(n), schedule));
  }

  lemma HeadOrSuccessorMoves(s: State)
    requires Inv(s) && s.tail != NULL
    ensures s.released < |s.arrivals| && 0 <= s.arrivals[s.released] < |s.threads|
    ensures var head := s.arrivals[s.released];
            Moves(s, head) || (&& s.released + 1 < |s.arrivals|
                               && s.threads[head].pc == Holding(AwaitNext)
                               && Moves(s, s.arrivals[s.released + 1]))
  {
    assert Arrived(s, s.released);
    var head := s.arrivals[s.released];
    assert Ready(s, head);
    if s.threads[head].pc == Holding(AwaitNext) && s.threads[head].next == NULL {
      assert Arrived(s, s.released + 1);
      var after := s.arrivals[s.released + 1];
      assert Ready(s, after) && s.threads[after].pc.Link?;
      assert Step(s, after).threads[after].pc.Spin?;
    } else {
      if s.threads[head].pc == Holding(Wake) {
        assert Arrived(s, s.released + 1);
      }
      assert Step(s, head).threads[head].pc != s.threads[head].pc;
    }
  }

  // ---- Every thread can get the lock

  lemma {:induction false} RunFirst(s: State, u: nat, more: seq<nat>)
    requires u < |s.threads| && forall t :: t in more ==> t < |s.threads|
    ensures forall t :: t in [u] + more ==> t < |s.threads|
    ensures Run(s, [u] + more) == Run(Step(s, u), more)
    decreases |more|
  {
    var all := [u] + more;
    if more == [] {
      assert all[..0] == [] && all[0] == u;
    } else {
      var last := |more| - 1;
      assert forall t :: t in more[..last] ==> t in more;
      RunFirst(s, u, more[..last]);
      assert all[..|all| - 1] == [u] + more[..last] && all[|all| - 1] == more[last];
    }
  }

  lemma {:induction false} RunBoth(s: State, first: seq<nat>, more: seq<nat>)
    requires forall t :: t in first ==> t < |s.threads|
    requires forall t :: t in more ==> t < |s.threads|
    ensures forall t :: t in first + more ==> t < |s.threads|
    ensures Run(s, first + more) == Run(Run(s, first), more)
    decreases |more|
  {
    if more == [] {
      assert first + more == first;
    } else {
      var last := |more| - 1;
      assert forall t :: t in more[..last] ==> t in more;
      RunBoth(s, first, more[..last]);
      var all := first + more;
      assert all[..|all| - 1] == first + more[..last] && all[|all| - 1] == more[last];
    }
  }

  /** How many steps the head of the queue has still to go before it hands the lock over. */
  function StepsLeft(pc: Pc): nat {
    match pc
    case Spin => 7
    case Holding(Critical) => 6
    case Holding(TestNext) => 5
    case Holding(Cas) => 4
    case Holding(AwaitNext) => 3
    case Holding(Grant) => 2
    case Holding(Wake) => 1
    case _ => 0
  }

  function Unlinked(s: State, t: int): nat {
    if 0 <= t < |s.threads| && s.threads[t].pc.Link? then 1 else 0
  }

  /** The steps of the head, and of its successor if that has not linked itself yet. */
  function Turn(s: State): nat
    requires s.released + 1 < |s.arrivals| && 0 <= s.arrivals[s.released] < |s.threads|
  {
    StepsLeft(s.threads[s.arrivals[s.released]].pc) + Unlinked(s, s.arrivals[s.released + 1])
  }

  /** The next of these steps. */
  lemma TurnStep(s: State) returns (u: nat)
    requires Inv(s) && s.released + 1 < |s.arrivals|
    ensures u < |s.threads| && Inv(Step(s, u)) && Step(s, u).arrivals == s.arrivals
    ensures 0 <= s.arrivals[s.released] < |s.threads|
    ensures || Step(s, u).released == s.released + 1
            || (Step(s, u).released == s.released && Turn(Step(s, u)) < Turn(s))
  {
    assert Arrived(s, s.released) && Arrived(s, s.released + 1);
    var head, after := s.arrivals[s.released], s.arrivals[s.released + 1];
    assert Ready(s, head) && Ready(s, after);
    u := if s.threads[head].pc == Holding(AwaitNext) && s.threads[head].next == NULL then after else head;
    StepKeepsInv(s, u);
    assert Arrived(s, |s.arrivals| - 1);
  }

  /** A thread in the queue gets the lock after at most these steps for each one before it. */
  lemma {:induction false} QueuedGetsLock(s: State, i: nat) returns (more: seq<nat>)
    requires Inv(s) && s.released <= i < |s.arrivals|
    ensures forall t :: t in more ==> t < |s.threads|
    ensures Run(s, more).arrivals == s.arrivals && Run(s, more).released == i
    ensures 0 <= s.arrivals[i] < |s.threads| && Run(s, more).threads[s.arrivals[i]].pc.Holding?
    decreases i - s.released,
              if s.released + 1 < |s.arrivals| && 0 <= s.arrivals[s.released] < |s.threads| then Turn(s) else 0
  {
    assert Arrived(s, i);
    var t := s.arrivals[i];
    assert Ready(s, t);
    more := [];
    if s.released < i {
      var u := TurnStep(s);
      more := QueuedGetsLock(Step(s, u), i);
      RunFirst(s, u, more);
      more := [u] + more;
    } else if !s.threads[t].pc.Holding? {
      RunFirst(s, t, []);
      assert [t as nat] + [] == [t];
      more := [t];
    }
  }

  /** A thread that is not in the queue joins it by at most three steps of its own. */
  lemma Joins(s: State, t: nat) returns (more: seq<nat>)
    requires Inv(s) && t < |s.threads| && !Queued(s.threads[t].pc)
    ensures forall u :: u in more ==> u == t
    ensures Inv(Run(s, more)) && Queued(Run(s, more).threads[t].pc)
    decreases if s.threads[t].pc.Idle? then 2 else if s.threads[t].pc.ClearNext? then 1 else 0
  {
    StepKeepsInv(s, t);
    if s.threads[t].pc.Swap? {
      RunFirst(s, t, []);
      more := [t];
      assert [t] + [] == [t];
    } else {
      more := Joins(Step(s, t), t);
      RunFirst(s, t, more);
      more := [t] + more;
    }
  }

  /** No lockout: however the threads have run so far, every thread can still get the lock. */
  lemma EveryThreadCanEnter(n: nat, schedule: seq<nat>, t: nat) returns (more: seq<nat>)
    requires t < n && forall u :: u in schedule ==> u < n
    ensures forall u :: u in schedule + more ==> u < n
    ensures Run(Init(n), schedule + more).threads[t].pc.Holding?
  {
    RunKeepsInv(n, schedule);
    var s := Run(Init(n), schedule);
    var join := [];
    if !Queued(s.threads[t].pc) {
      join := Joins(s, t);
    }
    var r := Run(s, join);
    assert Ready(r, t);
    var wait := QueuedGetsLock(r, r.threads[t].ticket);
    RunBoth(s, join, wait);
    RunBoth(Init(n), schedule, join + wait);
    more := join + wait;
  }
}
