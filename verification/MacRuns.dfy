/** The MAC table over whole runs: any packets at any cores, and any expiration passes. */
module MacRuns {
  import opened CellLists
  import opened DchainExp
  import opened MacTable
  import opened MacClocks

  /** A packet with source `src` from device `dev` comes at core `core`, or an expiration pass is made.  `busy` and
      `attempts` say what the transactions meet. */
  datatype Event =
    | Packet(core: nat, src: Mac, dev: nat, dst: Mac, now: int, busy: Contention)
    | Pass(now: int, attempts: seq<Attempt>)

  /** Each of the first `k` packets comes at a time that is not before that of any earlier one. */
  predicate InStep(events: seq<Event>, k: nat)
    requires k <= |events|
  {
    forall i, j {:trigger events[i], events[j]} ::
      0 <= i < j < k && events[i].Packet? && events[j].Packet? ==> events[i].now <= events[j].now
  }

  /** What becomes of a packet, or that the event was none. */
  datatype Reply = Answered(verdict: Verdict) | NoPacket

  /** A packet that is not aborted enters its source with its device and time, if the table has room; one whose
      source is known refreshes its time, if the last refresh is long ago, but not its device. */
  ghost predicate LearnedFrom(t: map<Mac, MacEntry>, t': map<Mac, MacEntry>, room: nat, src: Mac, dev: nat, now: int) {
    && (forall k :: k != src ==> (k in t' <==> k in t))
    && (forall k :: k in t && k in t' && k != src ==> t'[k] == t[k])
    && (src in t ==>
          && src in t' && t'[src].dev == t[src].dev
          && t'[src].time == if now > t[src].time + REFRESH_INTERVAL then now else t[src].time)
    && (src !in t ==> (src in t' <==> |t| < room) && (src in t' ==> t'[src] == MacEntry(dev, now)))
  }

  /** What one event does to the table, and to its packet: it goes to the device of its destination, or to all when
      the table does not hold that, or nowhere when its source is not in the table. */
  ghost predicate EventOk(e: Event, t: map<Mac, MacEntry>, t': map<Mac, MacEntry>, r: Reply, room: nat, validity: int,
                          inStep: bool) {
    match e
    case Packet(core, src, dev, dst, now, busy) =>
      if r == Answered(Aborted) then busy != CALM && t' == t
      else
        && LearnedFrom(t, t', room, src, dev, now)
        && r == Answered(if src !in t' then Dropped else if dst in t' then Sent(t'[dst].dev) else Flooded)
    case Pass(now, attempts) =>
      && r.NoPacket?
      && (|| (Trimmed(t, t', validity, now) && (inStep ==> t' == Fresh(t, validity, now)))
          || (t' == t && exists a :: a in attempts && !a.valid))
  }

  lemma PacketIsOk(e: Event, t: map<Mac, MacEntry>, t': map<Mac, MacEntry>, v: Verdict, room: nat, validity: int,
                   inStep: bool)
    requires e.Packet? && (v.Aborted? ==> e.busy != CALM && t' == t)
    requires !v.Aborted? ==> t' == Learned(t, room, e.src, e.dev, e.now)
    requires !v.Aborted? ==> v == if e.src in t' then Delivery(t', e.dst) else Dropped
    ensures EventOk(e, t, t', Answered(v), room, validity, inStep)
  {
  }

  /** Every ring is sorted, up to the time `v`. */
  ghost predicate Tidy(s: State, n: nat, v: int) {
    SortedTo(s, n, seq(n, _ => v))
  }

  /** Every ring is sorted, up to the expiry time of the latest of the first `k` packets. */
  ghost predicate TidyAfter(s: State, n: nat, events: seq<Event>, k: nat, validity: int)
    requires k <= |events|
  {
    forall v {:trigger Tidy(s, n, v)} :: Before(events, k, v - validity) ==> Tidy(s, n, v)
  }

  /** So it is while the packets are in step. */
  ghost predicate TidyWhile(s: State, n: nat, events: seq<Event>, k: nat, validity: int)
    requires k <= |events|
  {
    InStep(events, k) ==> TidyAfter(s, n, events, k, validity)
  }

  predicate Before(events: seq<Event>, k: nat, time: int)
    requires k <= |events|
  {
    forall i {:trigger events[i]} :: 0 <= i < k && events[i].Packet? ==> events[i].now <= time
  }

  lemma EmptyIsTidy(s: State, n: nat, count: nat, validity: int, v: int)
    requires Coherent(s, n, count, validity) && s.index == map[]
    ensures Tidy(s, n, v)
  {
    forall r: nat | r < n ensures s.layout.lists[Ring(r)] == [] {
      NoRings(s, n, count, validity, r);
    }
  }

  lemma RingForIsCore(s: State, n: nat, count: nat, validity: int, core: nat, src: Mac)
    requires Coherent(s, n, count, validity) && core < n
    ensures RingFor(s, n, core, src) < n
  {
    if src in s.index {
      assert KeyOk(s, n, count, src);
      AllocatedByListInd(s.cells, n, count, s.layout, s.index[src] + Shift(n));
    }
  }

  lemma PacketKeepsTidy(s: State, t: State, n: nat, count: nat, validity: int, e: Event, v: int)
    requires Coherent(s, n, count, validity) && Coherent(t, n, count, validity) && e.Packet? && e.core < n
    requires Handled(s, t, n, count, validity, e.core, e.src, e.dev, e.now) && Tidy(s, n, e.now + validity)
    requires e.now + validity <= v
    ensures Tidy(t, n, v)
  {
    var bounds := seq(n, _ => e.now + validity);
    RingForIsCore(s, n, count, validity, e.core, e.src);
    var ring := RingFor(s, n, e.core, e.src);
    HandledStaysSorted(s, t, n, count, validity, e.core, e.src, e.dev, e.now, bounds);
    assert bounds[ring := e.now + validity] == bounds;
    forall r: nat | r < n ensures RingSorted(t.cells, t.layout.lists[Ring(r)], v) {
      assert RingSorted(t.cells, t.layout.lists[Ring(r)], bounds[r]);
      RingSortedRaise(t.cells, t.layout.lists[Ring(r)], e.now + validity, v);
    }
  }

  /** A packet that is not before any earlier one. */
  lemma StepTidy(s: State, t: State, n: nat, count: nat, validity: int, events: seq<Event>, k: nat)
    requires Coherent(s, n, count, validity) && Coherent(t, n, count, validity)
    requires k < |events| && events[k].Packet? && events[k].core < n
    requires t == s || Handled(s, t, n, count, validity, events[k].core, events[k].src, events[k].dev, events[k].now)
    requires TidyWhile(s, n, events, k, validity)
    ensures TidyWhile(t, n, events, k + 1, validity)
  {
    if InStep(events, k + 1) {
      assert InStep(events, k);
      var e := events[k];
      forall v | Before(events, k + 1, v - validity) ensures Tidy(t, n, v) {
        assert Before(events, k, v - validity);
        if t != s {
          assert Before(events, k, e.now + validity - validity);
          assert Tidy(s, n, e.now + validity);
          PacketKeepsTidy(s, t, n, count, validity, e, v);
        }
      }
    }
  }

  lemma PassTidy(s: State, t: State, n: nat, validity: int, events: seq<Event>, k: nat)
    requires k < |events| && events[k].Pass? && StillSorted(s, t, n)
    requires TidyWhile(s, n, events, k, validity)
    ensures TidyWhile(t, n, events, k + 1, validity)
  {
    if InStep(events, k + 1) {
      assert InStep(events, k);
      forall v | Before(events, k + 1, v - validity) ensures Tidy(t, n, v) {
        assert Before(events, k, v - validity);
        assert Tidy(s, n, v);
      }
    }
  }

  lemma TidyNoneBehind(s: State, n: nat, events: seq<Event>, k: nat, validity: int, now: int)
    requires k <= |events| && HasLists(n, s.layout) && TidyAfter(s, n, events, k, validity)
    ensures NoneBehind(s, n, now)
  {
    var v := Latest(events, k);
    assert Tidy(s, n, v + validity);
    SortedNoneBehind(s, n, now, seq(n, _ => v + validity));
  }

  function Latest(events: seq<Event>, k: nat): (v: int)
    requires k <= |events|
    ensures Before(events, k, v)
  {
    if k == 0 then 0
    else
      var v := Latest(events, k - 1);
      if events[k - 1].Packet? && events[k - 1].now > v then events[k - 1].now else v
  }

  method OnePacket(b: Bridge, events: seq<Event>, k: nat) returns (r: Reply)
    requires b.Valid() && k < |events| && events[k].Packet? && events[k].core < b.heap.n
    requires TidyWhile(b.View(), b.heap.n, events, k, b.heap.validity)
    modifies b.heap.cells, b.heap`layout, b.dynMap.entries, b.macs, b.vals
    ensures b.Valid()
    ensures TidyWhile(b.View(), b.heap.n, events, k + 1, b.heap.validity)
    ensures EventOk(events[k], old(b.Table()), b.Table(), r, b.heap.Count(), b.heap.validity, InStep(events, k))
  {
    ghost var s, t := b.View(), b.Table();
    var e := events[k];
    var verdict := b.PktHandler(e.core, e.src, e.dev, e.dst, e.now, e.busy);
    r := Answered(verdict);
    PacketIsOk(e, t, b.Table(), verdict, b.heap.Count(), b.heap.validity, InStep(events, k));
    StepTidy(s, b.View(), b.heap.n, b.heap.Count(), b.heap.validity, events, k);
  }

  method OnePass(b: Bridge, events: seq<Event>, k: nat) returns (r: Reply)
    requires b.Valid() && k < |events| && events[k].Pass?
    requires TidyWhile(b.View(), b.heap.n, events, k, b.heap.validity)
    modifies b.heap.cells, b.heap`layout, b.heap`currFreeList, b.dynMap.entries, b.macs, b.vals
    ensures b.Valid()
    ensures TidyWhile(b.View(), b.heap.n, events, k + 1, b.heap.validity)
    ensures EventOk(events[k], old(b.Table()), b.Table(), r, b.heap.Count(), b.heap.validity, InStep(events, k))
  {
    ghost var s := b.View();
    var e := events[k];
    var unlocks;
    ghost var first;
    unlocks, first := b.ExpMac(e.now, e.attempts);
    r := NoPacket;
    PassTidy(s, b.View(), b.heap.n, b.heap.validity, events, k);
    if InStep(events, k) {
      TidyNoneBehind(s, b.heap.n, events, k, b.heap.validity, e.now);
    }
    if !unlocks[0] {
      assert e.attempts[first] in e.attempts && !e.attempts[first].valid;
    }
  }

  ghost predicate RoundOk(events: seq<Event>, i: nat, tables: seq<map<Mac, MacEntry>>, replies: seq<Reply>, room: nat,
                          validity: int)
    requires i < |events| && i < |replies| && i + 1 < |tables|
  {
    EventOk(events[i], tables[i], tables[i + 1], replies[i], room, validity, InStep(events, i))
  }

  /** What the table holds over a run, and what becomes of the packets. */
  ghost predicate RunOk(events: seq<Event>, k: nat, tables: seq<map<Mac, MacEntry>>, replies: seq<Reply>, room: nat,
                        validity: int)
    requires k <= |events|
  {
    && |tables| == k + 1 && |replies| == k && tables[0] == map[]
    && forall i: nat {:trigger RoundOk(events, i, tables, replies, room, validity)} ::
         i < k ==> RoundOk(events, i, tables, replies, room, validity)
  }

  lemma RunGoesOn(events: seq<Event>, k: nat, tables: seq<map<Mac, MacEntry>>, replies: seq<Reply>,
                  t: map<Mac, MacEntry>, r: Reply, room: nat, validity: int)
    requires k < |events| && RunOk(events, k, tables, replies, room, validity)
    requires EventOk(events[k], tables[k], t, r, room, validity, InStep(events, k))
    ensures RunOk(events, k + 1, tables + [t], replies + [r], room, validity)
  {
    forall i: nat | i < k + 1 ensures RoundOk(events, i, tables + [t], replies + [r], room, validity) {
      assert i < k ==> RoundOk(events, i, tables, replies, room, validity);
    }
  }

  method OneEvent(b: Bridge, events: seq<Event>, k: nat, ghost tables: seq<map<Mac, MacEntry>>, replies: seq<Reply>)
    returns (ghost tables': seq<map<Mac, MacEntry>>, replies': seq<Reply>)
    requires b.Valid() && k < |events| && (events[k].Packet? ==> events[k].core < b.heap.n)
    requires TidyWhile(b.View(), b.heap.n, events, k, b.heap.validity)
    requires RunOk(events, k, tables, replies, b.heap.Count(), b.heap.validity) && tables[k] == b.Table()
    modifies b.heap.cells, b.heap`layout, b.heap`currFreeList, b.dynMap.entries, b.macs, b.vals
    ensures b.Valid() && TidyWhile(b.View(), b.heap.n, events, k + 1, b.heap.validity)
    ensures RunOk(events, k + 1, tables', replies', b.heap.Count(), b.heap.validity) && tables'[k + 1] == b.Table()
  {
    var r;
    if events[k].Packet? {
      r := OnePacket(b, events, k);
    } else {
      r := OnePass(b, events, k);
    }
    RunGoesOn(events, k, tables, replies, b.Table(), r, b.heap.Count(), b.heap.validity);
    tables', replies' := tables + [b.Table()], replies + [r];
  }

  lemma NewIsTidy(s: State, n: nat, count: nat, validity: int, events: seq<Event>)
    requires Coherent(s, n, count, validity) && Known(s) == map[]
    ensures TidyWhile(s, n, events, 0, validity)
  {
    KnownKeys(s, n, count, validity);
    forall v ensures Tidy(s, n, v) {
      EmptyIsTidy(s, n, count, validity, v);
    }
  }

  /** Whatever packets come at which cores, with whatever times, and whatever passes are made: every packet is
      learned from and goes where the table says, and every pass removes expired entries only.  Up to the first
      packet that comes with an earlier time than one before it, every pass leaves exactly the fresh entries. */
  method Serve(b: Bridge, events: seq<Event>) returns (ghost tables: seq<map<Mac, MacEntry>>, replies: seq<Reply>)
    requires b.Valid() && b.Table() == map[]
    requires forall i {:trigger events[i]} :: 0 <= i < |events| && events[i].Packet? ==> events[i].core < b.heap.n
    modifies b.heap.cells, b.heap`layout, b.heap`currFreeList, b.dynMap.entries, b.macs, b.vals
    ensures b.Valid() && RunOk(events, |events|, tables, replies, b.heap.Count(), b.heap.validity)
    ensures tables[|events|] == b.Table()
  {
    NewIsTidy(b.View(), b.heap.n, b.heap.Count(), b.heap.validity, events);
    tables, replies := [map[]], [];
    for k := 0 to |events|
      invariant b.Valid() && RunOk(events, k, tables, replies, b.heap.Count(), b.heap.validity)
      invariant tables[k] == b.Table() && TidyWhile(b.View(), b.heap.n, events, k, b.heap.validity)
    {
      tables, replies := OneEvent(b, events, k, tables, replies);
    }
  }

  // ---- What the bridge is for

  /** Packet `i`, which was not aborted, came from `mac` at device `dev`. */
  ghost predicate CameFrom(events: seq<Event>, replies: seq<Reply>, i: nat, mac: Mac, dev: nat) {
    && i < |events| && i < |replies| && events[i].Packet? && replies[i] != Answered(Aborted)
    && events[i].src == mac && events[i].dev == dev
  }

  /** Whatever the table knows of a MAC has been learned from a packet with it as source. */
  lemma {:induction false} KnownIsLearned(events: seq<Event>, n: nat, tables: seq<map<Mac, MacEntry>>,
                                          replies: seq<Reply>, room: nat, validity: int, k: nat, mac: Mac)
    returns (i: nat)
    requires n <= |events| && RunOk(events, n, tables, replies, room, validity) && k <= n && mac in tables[k]
    ensures i < k && CameFrom(events, replies, i, mac, tables[k][mac].dev)
  {
    assert RoundOk(events, k - 1, tables, replies, room, validity);
    if mac in tables[k - 1] && tables[k - 1][mac].dev == tables[k][mac].dev {
      i := KnownIsLearned(events, n, tables, replies, room, validity, k - 1, mac);
    } else {
      i := k - 1;
    }
  }

  /** A packet is sent only to a device at which a packet from its destination has come in. */
  lemma SentWhereLearned(events: seq<Event>, n: nat, tables: seq<map<Mac, MacEntry>>, replies: seq<Reply>, room: nat,
                         validity: int, k: nat, dev: nat) returns (i: nat)
    requires n <= |events| && RunOk(events, n, tables, replies, room, validity) && k < n && events[k].Packet?
    requires replies[k] == Answered(Sent(dev))
    ensures i <= k && CameFrom(events, replies, i, events[k].dst, dev)
  {
    assert RoundOk(events, k, tables, replies, room, validity);
    i := KnownIsLearned(events, n, tables, replies, room, validity, k + 1, events[k].dst);
  }

  /** Until a pass comes after its expiry time, a MAC stays where it was learned. */
  lemma {:induction false} StaysKnown(events: seq<Event>, n: nat, tables: seq<map<Mac, MacEntry>>, replies: seq<Reply>,
                                      room: nat, validity: int, i: nat, k: nat, mac: Mac)
    requires n <= |events| && RunOk(events, n, tables, replies, room, validity) && i <= k <= n && mac in tables[i]
    requires forall j {:trigger events[j]} ::
               i <= j < k && events[j].Pass? ==> events[j].now <= tables[i][mac].time + validity
    ensures mac in tables[k] && tables[k][mac].dev == tables[i][mac].dev && tables[k][mac].time >= tables[i][mac].time
  {
    if i < k {
      StaysKnown(events, n, tables, replies, room, validity, i, k - 1, mac);
      assert RoundOk(events, k - 1, tables, replies, room, validity);
    }
  }

  /** So does a packet to it that is neither aborted nor, for want of room for its source, dropped: it is sent to the
      device from which packet `i` has come and been learned. */
  lemma LearnedIsReached(events: seq<Event>, n: nat, tables: seq<map<Mac, MacEntry>>, replies: seq<Reply>, room: nat,
                         validity: int, i: nat, k: nat)
    requires n <= |events| && RunOk(events, n, tables, replies, room, validity) && i < k < n && events[k].Packet?
    requires events[i].Packet? && events[i].src == events[k].dst && events[i].src !in tables[i]
    requires replies[i] != Answered(Aborted) && replies[i] != Answered(Dropped)
    requires forall j {:trigger events[j]} ::
               i < j < k && events[j].Pass? ==> events[j].now <= events[i].now + validity
    ensures replies[k] in {Answered(Aborted), Answered(Dropped), Answered(Sent(events[i].dev))}
  {
    assert RoundOk(events, i, tables, replies, room, validity);
    StaysKnown(events, n, tables, replies, room, validity, i + 1, k, events[i].src);
    assert RoundOk(events, k, tables, replies, room, validity);
  }
}
