/** The reusable spinning barrier of deps/vigor/nf-lb/barrier.c as a step system under sequential
    consistency.

    `began` and `left` count the calls of `barrier_wait` that a thread has begun and returned from; no
    step reads them. */
module Barrier {
  import opened Counting

  /** The instruction a thread executes next. */
  datatype Pc =
    | Outside   // passed_old := passed
    | Adding    // fetch-and-add(bar, 1), compare with P - 1
    | Resetting // bar := 0
    | Marking   // passed := passed_old + 1
    | Waiting   // while passed == passed_old

  datatype Thread = Thread(pc: Pc, seen: int, began: nat, left: nat)

  datatype State = State(bar: int, passed: int, threads: seq<Thread>)

  function Init(p: nat): State {
    State(0, 0, seq(p, _ => Thread(Outside, 0, 0, 0)))
  }

  /** One step of thread `t`; a spinning thread whose condition holds leaves the state as it is. */
  function Step(s: State, t: nat): (r: State)
    requires t < |s.threads|
    ensures |r.threads| == |s.threads|
  {
    var me := s.threads[t];
    match me.pc
    case Outside => Put(s, t, me.(pc := Adding, seen := s.passed, began := me.began + 1))
    case Adding =>
      Put(s.(bar := s.bar + 1), t, me.(pc := if s.bar == |s.threads| - 1 then Resetting else Waiting))
    case Resetting => Put(s.(bar := 0), t, me.(pc := Marking))
    case Marking => Put(s.(passed := me.seen + 1), t, me.(pc := Outside, left := me.left + 1))
    case Waiting => if s.passed == me.seen then s else Put(s, t, me.(pc := Outside, left := me.left + 1))
  }

  function Put(s: State, t: nat, me: Thread): State
    requires t < |s.threads|
  {
    s.(threads := s.threads[t := me])
  }

  /** A step moves one thread, which is outside afterwards only when it leaves a barrier. */
  lemma StepMoves(s: State, t: nat)
    requires t < |s.threads|
    ensures forall u :: 0 <= u < |s.threads| && u != t ==> Step(s, t).threads[u] == s.threads[u]
    ensures var r := Step(s, t).threads[t];
            r.left == s.threads[t].left + if r.pc.Outside? then 1 else 0
  {
  }

  // ---- The invariant

  /** Thread `t` waits in the current round. */
  predicate HasArrived(s: State, t: int) {
    0 <= t < |s.threads| && s.threads[t].pc.Waiting? && s.threads[t].left == s.passed
  }

  ghost function Arrivals(s: State): set<int> {
    set t {:trigger HasArrived(s, t)} | 0 <= t < |s.threads| && HasArrived(s, t)
  }

  /** Thread `t` is the one that completes the current round. */
  predicate Completes(s: State, t: int) {
    0 <= t < |s.threads| && (s.threads[t].pc.Resetting? || s.threads[t].pc.Marking?)
  }

  /** A thread has left either all completed rounds, or all but the last, in which it still waits. */
  ghost predicate ThreadOk(s: State, t: int)
    requires 0 <= t < |s.threads|
  {
    var me := s.threads[t];
    && me.began == me.left + (if me.pc.Outside? then 0 else 1)
    && (!me.pc.Outside? ==> me.seen == me.left)
    && (me.left == s.passed || (me.left == s.passed - 1 && me.pc.Waiting?))
  }

  /** While a thread completes a round, all others wait in it. */
  ghost predicate Alone(s: State, t: int)
    requires 0 <= t < |s.threads|
  {
    Completes(s, t) ==>
      && (forall u {:trigger HasArrived(s, u)} :: 0 <= u < |s.threads| && u != t ==> HasArrived(s, u))
      && s.bar == if s.threads[t].pc.Resetting? then |s.threads| else 0
  }

  ghost predicate NobodyCompletes(s: State) {
    forall t {:trigger Completes(s, t)} :: !Completes(s, t)
  }

  ghost predicate Inv(s: State) {
    && (forall t {:trigger ThreadOk(s, t)} :: 0 <= t < |s.threads| ==> ThreadOk(s, t))
    && (forall t {:trigger Alone(s, t)} :: 0 <= t < |s.threads| ==> Alone(s, t))
    && (NobodyCompletes(s) ==> s.bar == |Arrivals(s)| && (s.threads != [] ==> s.bar < |s.threads|))
  }

  lemma InitInv(p: nat)
    ensures Inv(Init(p))
  {
    var s := Init(p);
    assert Arrivals(s) == {};
  }

  /** No thread leaves its k-th barrier before all threads have begun theirs. */
  lemma NobodyLeavesEarly(s: State, t: nat, u: nat)
    requires Inv(s) && t < |s.threads| && u < |s.threads|
    ensures s.threads[t].left <= s.threads[u].began
    ensures s.threads[u].pc.Outside? ==> s.threads[u].began == s.threads[u].left
    ensures s.threads[u].began <= s.threads[u].left + 1
  {
    assert ThreadOk(s, t) && ThreadOk(s, u);
  }

  /** Not all threads are stuck in the loop. */
  lemma SomeThreadCanStep(s: State)
    requires Inv(s) && s.threads != []
    ensures exists t :: 0 <= t < |s.threads| && Step(s, t) != s
  {
    if forall t {:trigger HasArrived(s, t)} :: 0 <= t < |s.threads| ==> HasArrived(s, t) {
      AllArrived(s);
      assert false;
    }
    var t :| 0 <= t < |s.threads| && !HasArrived(s, t);
    assert ThreadOk(s, t);
    assert Step(s, t) != s;
  }

  lemma AllArrived(s: State)
    requires forall t {:trigger HasArrived(s, t)} :: 0 <= t < |s.threads| ==> HasArrived(s, t)
    ensures NobodyCompletes(s) && |Arrivals(s)| == |s.threads|
  {
    forall t ensures !Completes(s, t) {
      assert HasArrived(s, t) <==> 0 <= t < |s.threads|;
    }
    assert Arrivals(s) == Range(|s.threads|);
  }

  // ---- Steps keep the invariant

  lemma StepKeepsInv(s: State, t: nat)
    requires Inv(s) && t < |s.threads|
    ensures Inv(Step(s, t))
  {
    assert ThreadOk(s, t) && Alone(s, t);
    match s.threads[t].pc
    case Outside => BeginKeepsInv(s, t);
    case Adding => AddKeepsInv(s, t);
    case Resetting => ResetKeepsInv(s, t);
    case Marking => MarkKeepsInv(s, t);
    case Waiting => LeaveKeepsInv(s, t);
  }

  /** A thread that is neither waiting nor completing: nobody completes. */
  lemma StillMissing(s: State, t: nat)
    requires Inv(s) && t < |s.threads| && (s.threads[t].pc.Outside? || s.threads[t].pc.Adding?)
    ensures NobodyCompletes(s)
  {
    forall u ensures !Completes(s, u) {
      OthersArrived(s, u, t);
    }
  }

  lemma OthersArrived(s: State, u: int, t: int)
    requires Inv(s) && 0 <= t < |s.threads|
    ensures Completes(s, u) && u != t ==> HasArrived(s, t)
  {
    assert 0 <= u < |s.threads| ==> Alone(s, u);
  }

  lemma BeginKeepsInv(s: State, t: nat)
    requires Inv(s) && t < |s.threads| && s.threads[t].pc.Outside?
    ensures Inv(Step(s, t))
  {
    var r := Step(s, t);
    StillMissing(s, t);
    assert ThreadOk(s, t);
    forall u | 0 <= u < |r.threads| ensures ThreadOk(r, u) && Alone(r, u) {
      assert ThreadOk(s, u) && !Completes(s, u);
    }
    SameArrivals(s, r);
  }

  lemma SameArrivals(s: State, r: State)
    requires |r.threads| == |s.threads|
    requires forall u {:trigger HasArrived(s, u)} {:trigger HasArrived(r, u)} :: HasArrived(r, u) <==> HasArrived(s, u)
    ensures Arrivals(r) == Arrivals(s)
  {
  }

  lemma AddKeepsInv(s: State, t: nat)
    requires Inv(s) && t < |s.threads| && s.threads[t].pc.Adding?
    ensures Inv(Step(s, t))
  {
    if s.bar == |s.threads| - 1 {
      LastAddKeepsInv(s, t);
    } else {
      EarlyAddKeepsInv(s, t);
    }
  }

  lemma EarlyAddKeepsInv(s: State, t: nat)
    requires Inv(s) && t < |s.threads| && s.threads[t].pc.Adding? && s.bar != |s.threads| - 1
    ensures Inv(Step(s, t))
  {
    var r := Step(s, t);
    StillMissing(s, t);
    assert ThreadOk(s, t);
    forall u ensures HasArrived(r, u) <==> u == t || HasArrived(s, u) {
    }
    OneMoreArrival(s, r, t);
    forall u | 0 <= u < |r.threads| ensures ThreadOk(r, u) && Alone(r, u) {
      assert ThreadOk(s, u) && !Completes(s, u);
    }
  }

  lemma OneMoreArrival(s: State, r: State, t: int)
    requires |r.threads| == |s.threads| && 0 <= t < |s.threads| && !HasArrived(s, t)
    requires forall u {:trigger HasArrived(s, u)} {:trigger HasArrived(r, u)} ::
               HasArrived(r, u) <==> u == t || HasArrived(s, u)
    ensures |Arrivals(r)| == |Arrivals(s)| + 1
  {
    assert Arrivals(r) == Arrivals(s) + {t};
  }

  lemma LastAddKeepsInv(s: State, t: nat)
    requires Inv(s) && t < |s.threads| && s.threads[t].pc.Adding? && s.bar == |s.threads| - 1
    ensures Inv(Step(s, t))
  {
    var r := Step(s, t);
    StillMissing(s, t);
    LastArrival(s, t);
    assert ThreadOk(s, t) && Completes(r, t);
    forall u | 0 <= u < |r.threads| && u != t ensures HasArrived(r, u) {
      assert HasArrived(s, u);
    }
    forall u | 0 <= u < |r.threads| ensures ThreadOk(r, u) && Alone(r, u) {
      assert ThreadOk(s, u) && !Completes(s, u);
    }
  }

  /** When `bar` has counted all threads but one, the others have all arrived. */
  lemma LastArrival(s: State, t: nat)
    requires Inv(s) && t < |s.threads| && s.threads[t].pc.Adding? && s.bar == |s.threads| - 1
    ensures forall u {:trigger HasArrived(s, u)} :: 0 <= u < |s.threads| && u != t ==> HasArrived(s, u)
  {
    StillMissing(s, t);
    var others := Range(|s.threads|) - {t as int};
    SubsetSize(Arrivals(s), others);
    forall u | 0 <= u < |s.threads| && u != t ensures HasArrived(s, u) {
      assert u in others;
    }
  }

  lemma ResetKeepsInv(s: State, t: nat)
    requires Inv(s) && t < |s.threads| && s.threads[t].pc.Resetting?
    ensures Inv(Step(s, t))
  {
    var r := Step(s, t);
    assert Completes(s, t) && Completes(r, t) && Alone(s, t);
    forall u | 0 <= u < |r.threads| ensures ThreadOk(r, u) && Alone(r, u) {
      assert ThreadOk(s, u) && (u != t ==> HasArrived(s, u));
      forall v | 0 <= v < |r.threads| && v != t ensures HasArrived(r, v) {
        assert HasArrived(s, v);
      }
    }
  }

  lemma MarkKeepsInv(s: State, t: nat)
    requires Inv(s) && t < |s.threads| && s.threads[t].pc.Marking?
    ensures Inv(Step(s, t))
  {
    var r := Step(s, t);
    assert Completes(s, t) && Alone(s, t) && ThreadOk(s, t);
    forall u | 0 <= u < |r.threads| ensures ThreadOk(r, u) && !Completes(r, u) && !HasArrived(r, u) {
      assert ThreadOk(s, u) && (u != t ==> HasArrived(s, u));
    }
    assert Arrivals(r) == {};
  }

  lemma LeaveKeepsInv(s: State, t: nat)
    requires Inv(s) && t < |s.threads| && s.threads[t].pc.Waiting?
    ensures Inv(Step(s, t))
  {
    var r := Step(s, t);
    assert ThreadOk(s, t);
    if r != s {
      forall u ensures !Completes(s, u) {
        OthersArrived(s, u, t);
      }
      forall u | 0 <= u < |r.threads| ensures ThreadOk(r, u) && Alone(r, u) {
        assert ThreadOk(s, u) && !Completes(s, u);
      }
      SameArrivals(s, r);
    }
  }

  /** The state after thread `schedule[0]` steps, then `schedule[1]`, and so on. */
  function Run(s: State, schedule: seq<nat>): (r: State)
    requires forall t :: t in schedule ==> t < |s.threads|
    ensures |r.threads| == |s.threads|
    decreases |schedule|
  {
    if schedule == [] then s
    else
      var last := |schedule| - 1;
      assert schedule[last] in schedule;
      assert forall t :: t in schedule[..last] ==> t in schedule;
      Step(Run(s, schedule[..last]), schedule[last])
  }

  lemma {:induction false} RunKeepsInv(s: State, schedule: seq<nat>)
    requires Inv(s) && forall t :: t in schedule ==> t < |s.threads|
    ensures Inv(Run(s, schedule))
    decreases |schedule|
  {
    if schedule != [] {
      var last := |schedule| - 1;
      assert schedule[last] in schedule;
      assert forall t :: t in schedule[..last] ==> t in schedule;
      RunKeepsInv(s, schedule[..last]);
      StepKeepsInv(Run(s, schedule[..last]), schedule[last]);
    }
  }

  /** In every interleaving, no thread leaves its k-th barrier before all threads have begun theirs. */
  lemma BarrierIsSafe(p: nat, schedule: seq<nat>, t: nat, u: nat)
    requires t < p && u < p && forall x :: x in schedule ==> x < p
    ensures Run(Init(p), schedule).threads[t].left <= Run(Init(p), schedule).threads[u].began
  {
    InitInv(p);
    RunKeepsInv(Init(p), schedule);
    NobodyLeavesEarly(Run(Init(p), schedule), t, u);
  }

  // ---- Every thread can leave

  lemma {:induction false} RunBoth(s: State, first: seq<nat>, more: seq<nat>)
    requires forall t :: t in first ==> t < |s.threads|
    requires forall t :: t in more ==> t < |s.threads|
    ensures forall t :: t in first + more ==> t < |s.threads|
    ensures Run(s, first + more) == Run(Run(s, first), more)
    decreases |more|
  {
    if more == [] {
      assert first + more == first;
    } else {
      var last := |more| - 1;
      assert forall t :: t in more[..last] ==> t in more;
      RunBoth(s, first, more[..last]);
      var all := first + more;
      assert all[..|all| - 1] == first + more[..last] && all[|all| - 1] == more[last];
    }
  }

  lemma RunOne(s: State, u: nat)
    requires u < |s.threads|
    ensures Run(s, [u]) == Step(s, u)
  {
    assert [u][..0] == [];
  }

  /** How many steps thread `u` has still to go in the current round. */
  function Todo(s: State, u: nat): nat
    requires u < |s.threads|
  {
    match s.threads[u].pc
    case Waiting => if s.threads[u].left == s.passed then 0 else 5
    case Outside => 4
    case Adding => 3
    case Resetting => 2
    case Marking => 1
  }

  /** All steps of the first `k` threads. */
  function Work(s: State, k: nat): nat
    requires k <= |s.threads|
  {
    if k == 0 then 0 else Work(s, k - 1) + Todo(s, k - 1)
  }

  lemma {:induction false} WorkShrinks(s: State, r: State, u: nat, k: nat)
    requires k <= |s.threads| == |r.threads| && u < |s.threads| && Todo(r, u) < Todo(s, u)
    requires forall v: nat {:trigger Todo(r, v)} :: v < |s.threads| && v != u ==> Todo(r, v) == Todo(s, v)
    ensures Work(r, k) == Work(s, k) - if u < k then Todo(s, u) - Todo(r, u) else 0
  {
    if k > 0 {
      WorkShrinks(s, r, u, k - 1);
    }
  }

  /** A step of a thread that has not arrived: the round is completed, or there is less to do. */
  lemma NextStep(s: State) returns (u: nat)
    requires Inv(s) && s.threads != []
    ensures u < |s.threads| && Inv(Step(s, u))
    ensures || Step(s, u).passed == s.passed + 1
            || (Step(s, u).passed == s.passed && Work(Step(s, u), |s.threads|) < Work(s, |s.threads|))
  {
    if forall t {:trigger HasArrived(s, t)} :: 0 <= t < |s.threads| ==> HasArrived(s, t) {
      AllArrived(s);
      assert false;
    }
    u :| u < |s.threads| && !HasArrived(s, u);
    assert ThreadOk(s, u);
    StepKeepsInv(s, u);
    var r := Step(s, u);
    if r.passed == s.passed {
      WorkShrinks(s, r, u, |s.threads|);
    }
  }

  /** The current round can be completed. */
  lemma {:induction false} RoundEnds(s: State) returns (more: seq<nat>)
    requires Inv(s) && s.threads != []
    ensures forall t :: t in more ==> t < |s.threads|
    ensures Inv(Run(s, more)) && Run(s, more).passed == s.passed + 1
    decreases Work(s, |s.threads|)
  {
    var u := NextStep(s);
    RunOne(s, u);
    more := [u];
    if Step(s, u).passed == s.passed {
      var rest := RoundEnds(Step(s, u));
      RunBoth(s, [u], rest);
      more := [u] + rest;
    }
  }

  /** However the threads have run so far, every thread can still leave the barrier that it is in, or the next
      one. */
  lemma EveryThreadCanLeave(p: nat, schedule: seq<nat>, t: nat) returns (more: seq<nat>)
    requires t < p && forall x :: x in schedule ==> x < p
    ensures forall x :: x in schedule + more ==> x < p
    ensures Run(Init(p), schedule + more).threads[t].left > Run(Init(p), schedule).threads[t].left
  {
    InitInv(p);
    RunKeepsInv(Init(p), schedule);
    var s := Run(Init(p), schedule);
    more := RoundEnds(s);
    var r := Run(s, more);
    RunBoth(Init(p), schedule, more);
    assert ThreadOk(s, t) && ThreadOk(r, t);
    if r.threads[t].left != r.passed {
      RunOne(r, t);
      RunBoth(Init(p), schedule + more, [t]);
      assert schedule + (more + [t]) == schedule + more + [t];
      more := more + [t];
    }
  }
}
