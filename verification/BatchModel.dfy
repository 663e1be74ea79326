/** The batched packet loop of src/data-plane.c for packets with packet set state, as functions.

    A run of packets that belong to registered packet sets is one transaction.  The handlers update the
    packet set states in place; before each packet its state is copied to an undo log, and an abort
    replays the log.  The handlers' other state `N` is private to the transaction. */
module BatchModel {
  import opened Counting

  datatype Option<T> = None | Some(value: T)

  /** A packet of the batch: the packet set it belongs to, and whether it could be parsed. */
  datatype Packet<I, B> = Packet(id: I, parsed: bool, body: B)

  /** The network function: `device` is where the batch came from and where dropped packets go.
      `handle` runs on registered packet sets; `unknown` on others, where it may register the packet set
      with an initial state and may leave the output device alone.  `place` chooses the storage of a new
      packet set. */
  datatype Function<!N, !S, !I, !B> = Function(
    device: nat,
    handle: (N, B, S) -> (N, S, nat),
    unknown: (N, B) -> (N, Option<S>, Option<nat>),
    place: map<I, nat> -> nat)

  datatype World<N, S, I> = World(n: N, store: seq<S>, index: map<I, nat>)

  predicate IndexOk<S, I(==)>(index: map<I, nat>, store: seq<S>) {
    forall id :: id in index ==> index[id] < |store|
  }

  // ---- One packet at a time

  function Register<N, S, I(==), B>(nf: Function<N, S, I, B>, w: World<N, S, I>, id: I, s: S): World<N, S, I> {
    var p := nf.place(w.index);
    if p < |w.store| then w.(store := w.store[p := s], index := w.index[id := p]) else w
  }

  /** The effect of one packet and its output device; `firm` is false when an unknown packet's handler
      does not choose the device. */
  datatype Outcome<N, S, I> = Outcome(w: World<N, S, I>, device: nat, firm: bool)

  function Known<N, S, I(==), B>(nf: Function<N, S, I, B>, w: World<N, S, I>, p: Packet<I, B>): Outcome<N, S, I>
    requires p.id in w.index && w.index[p.id] < |w.store|
  {
    var ptr := w.index[p.id];
    var (n, s, device) := nf.handle(w.n, p.body, w.store[ptr]);
    Outcome(w.(n := n, store := w.store[ptr := s]), device, true)
  }

  function Unknown<N, S, I(==), B>(nf: Function<N, S, I, B>, w: World<N, S, I>, p: Packet<I, B>): Outcome<N, S, I> {
    var (n, s, device) := nf.unknown(w.n, p.body);
    var w' := w.(n := n);
    Outcome(if s.Some? then Register(nf, w', p.id, s.value) else w',
            if device.Some? then device.value else nf.device, device.Some?)
  }

  function One<N, S, I(==), B>(nf: Function<N, S, I, B>, w: World<N, S, I>, p: Packet<I, B>): Outcome<N, S, I>
    requires IndexOk(w.index, w.store)
  {
    if !p.parsed then Outcome(w, nf.device, true)
    else if p.id in w.index then Known(nf, w, p)
    else Unknown(nf, w, p)
  }

  /** The world after the packets, one at a time. */
  function After<N, S, I(==), B>(nf: Function<N, S, I, B>, w: World<N, S, I>, ps: seq<Packet<I, B>>)
    : (r: World<N, S, I>)
    requires IndexOk(w.index, w.store)
    ensures IndexOk(r.index, r.store) && |r.store| == |w.store|
  {
    if ps == [] then w else One(nf, After(nf, w, ps[..|ps| - 1]), ps[|ps| - 1]).w
  }

  function OutcomeOf<N, S, I(==), B>(nf: Function<N, S, I, B>, w: World<N, S, I>, ps: seq<Packet<I, B>>, i: nat)
    : Outcome<N, S, I>
    requires IndexOk(w.index, w.store) && i < |ps|
  {
    One(nf, After(nf, w, ps[..i]), ps[i])
  }

  // ---- The undo log

  datatype Saved<S> = Saved(ptr: nat, value: S)

  /** `rollback_pkt_set_states`: the log is replayed from its start. */
  function Replay<S>(store: seq<S>, log: seq<Saved<S>>): (r: seq<S>)
    ensures |r| == |store|
  {
    if log == [] then store
    else
      var s, e := Replay(store, log[..|log| - 1]), log[|log| - 1];
      if e.ptr < |s| then s[e.ptr := e.value] else s
  }

  function Pointers<S>(log: seq<Saved<S>>): seq<int> {
    seq(|log|, i requires 0 <= i < |log| => log[i].ptr)
  }

  /** Only logged states differ from the original ones, and the log holds the original values. */
  ghost predicate Logged<S>(original: seq<S>, now: seq<S>, log: seq<Saved<S>>) {
    && |now| == |original|
    && (forall p: nat :: p < |original| && p !in Pointers(log) ==> now[p] == original[p])
    && (forall i :: 0 <= i < |log| ==> log[i].ptr < |original| && log[i].value == original[log[i].ptr])
  }

  lemma {:induction false} ReplayValue<S>(store: seq<S>, log: seq<Saved<S>>, p: nat)
    requires p < |store|
    ensures p !in Pointers(log) ==> Replay(store, log)[p] == store[p]
    ensures p in Pointers(log) ==>
              exists i :: 0 <= i < |log| && log[i].ptr == p && Replay(store, log)[p] == log[i].value
  {
    if log != [] {
      var last := |log| - 1;
      ReplayValue(store, log[..last], p);
      assert Pointers(log) == Pointers(log[..last]) + [log[last].ptr];
    }
  }

  lemma ReplayRestores<S>(original: seq<S>, now: seq<S>, log: seq<Saved<S>>)
    requires Logged(original, now, log)
    ensures Replay(now, log) == original
  {
    forall p: nat | p < |original| ensures Replay(now, log)[p] == original[p] {
      ReplayValue(now, log, p);
    }
  }

  lemma {:induction false} LastOccurrence(s: seq<int>, x: int) returns (i: nat)
    requires x in s
    ensures i < |s| && s[i] == x && forall j :: i < j < |s| ==> s[j] != x
  {
    i := |s| - 1;
    while s[i] != x
      invariant i < |s| && forall j :: i < j < |s| ==> s[j] != x
      decreases i
    {
      i := i - 1;
    }
  }

  lemma {:induction false} LastWriteWins<S>(store: seq<S>, log: seq<Saved<S>>, i: nat)
    requires i < |log| && log[i].ptr < |store|
    requires forall j :: i < j < |log| ==> log[j].ptr != log[i].ptr
    ensures Replay(store, log)[log[i].ptr] == log[i].value
  {
    if i < |log| - 1 {
      LastWriteWins(store, log[..|log| - 1], i);
    }
  }

  // ---- Ranges of packets of registered packet sets

  /** An aborted attempt: the packet of the range at which its handler gives up, leaving the state half
      written (or, when there is no such packet, the end of the transaction), and the output device that
      an aborted unknown packet has left behind. */
  datatype Fault<S> = Fault(at: nat, garbage: S, left: Option<nat>)

  /** Every parsed packet belongs to a registered packet set. */
  predicate AllKnown<I(==), B>(index: map<I, nat>, ps: seq<Packet<I, B>>, start: nat, end: nat)
    requires start <= end <= |ps|
  {
    forall i :: start <= i < end && ps[i].parsed ==> ps[i].id in index
  }

  /** The end of the range of registered packets that goes on at `k`. */
  function EndOf<I(==), B>(index: map<I, nat>, ps: seq<Packet<I, B>>, k: nat): (end: nat)
    requires k <= |ps|
    ensures k <= end <= |ps| && AllKnown(index, ps, k, end)
    decreases |ps| - k
  {
    if k < |ps| && (!ps[k].parsed || ps[k].id in index) then EndOf(index, ps, k + 1) else k
  }

  /** The state pointers of the parsed packets from `start` up to `end`. */
  function StatePointers<I(==), B>(index: map<I, nat>, ps: seq<Packet<I, B>>, start: nat, end: nat): seq<int>
    requires start <= end <= |ps| && AllKnown(index, ps, start, end)
  {
    if start == end then []
    else
      var p := ps[end - 1];
      StatePointers(index, ps, start, end - 1) + if p.parsed then [index[p.id] as int] else []
  }

  /** The handler of packet `start + at` gives up. */
  predicate GivesUp<I, B>(ps: seq<Packet<I, B>>, start: nat, end: nat, at: nat)
    requires start <= end <= |ps|
  {
    start + at < end && ps[start + at].parsed
  }

  /** The packets whose states an aborted attempt has logged: those from `start` up to here. */
  function LoggedEnd<I, B>(ps: seq<Packet<I, B>>, start: nat, end: nat, at: nat): (l: nat)
    requires start <= end <= |ps|
    ensures start <= l <= end
  {
    if GivesUp(ps, start, end, at) then start + at + 1 else end
  }

  /** A transaction in progress. */
  datatype Tx<N, S> = Tx(n: N, store: seq<S>, log: seq<Saved<S>>)

  /** The handlers of the packets from `start` up to `k` have run. */
  function Ran<N, S, I(==), B>(nf: Function<N, S, I, B>, w: World<N, S, I>, ps: seq<Packet<I, B>>, start: nat, k: nat)
    : (t: Tx<N, S>)
    requires IndexOk(w.index, w.store) && start <= k <= |ps| && AllKnown(w.index, ps, start, k)
    ensures |t.store| == |w.store|
  {
    if k == start then Tx(w.n, w.store, [])
    else
      var t, p := Ran(nf, w, ps, start, k - 1), ps[k - 1];
      if !p.parsed then t
      else
        var ptr := w.index[p.id];
        var (n, s, device) := nf.handle(t.n, p.body, t.store[ptr]);
        Tx(n, t.store[ptr := s], t.log + [Saved(ptr, t.store[ptr])])
  }

  /** The output device of packet `i`. */
  function DeviceIn<N, S, I(==), B>(nf: Function<N, S, I, B>, w: World<N, S, I>, ps: seq<Packet<I, B>>, start: nat,
                                    i: nat)
    : nat
    requires IndexOk(w.index, w.store) && start <= i < |ps| && AllKnown(w.index, ps, start, i)
    requires ps[i].parsed && ps[i].id in w.index
  {
    var t := Ran(nf, w, ps, start, i);
    nf.handle(t.n, ps[i].body, t.store[w.index[ps[i].id]]).2
  }

  /** The states when an attempt is aborted. */
  function Garbled<N, S, I(==), B>(nf: Function<N, S, I, B>, w: World<N, S, I>, ps: seq<Packet<I, B>>, start: nat,
                                   end: nat, f: Fault<S>): (r: seq<S>)
    requires IndexOk(w.index, w.store) && start <= end <= |ps| && AllKnown(w.index, ps, start, end)
    ensures |r| == |w.store|
  {
    var s := Ran(nf, w, ps, start, LoggedEnd(ps, start, end, f.at)).store;
    if GivesUp(ps, start, end, f.at) then s[w.index[ps[start + f.at].id] := f.garbage] else s
  }

  /** The states after an aborted attempt and its rollback. */
  function Undone<N, S, I(==), B>(nf: Function<N, S, I, B>, w: World<N, S, I>, ps: seq<Packet<I, B>>, start: nat,
                                  end: nat, f: Fault<S>): (r: seq<S>)
    requires IndexOk(w.index, w.store) && start <= end <= |ps| && AllKnown(w.index, ps, start, end)
    ensures |r| == |w.store|
  {
    Replay(Garbled(nf, w, ps, start, end, f), Ran(nf, w, ps, start, LoggedEnd(ps, start, end, f.at)).log)
  }

  /** The world when the first attempt from `t` on that is not aborted begins. */
  function Retried<N, S, I(==), B>(nf: Function<N, S, I, B>, w: World<N, S, I>, ps: seq<Packet<I, B>>, start: nat,
                                   end: nat, faults: seq<Option<Fault<S>>>, t: nat): (r: World<N, S, I>)
    requires IndexOk(w.index, w.store) && start <= end <= |ps| && AllKnown(w.index, ps, start, end)
    ensures r.n == w.n && r.index == w.index && |r.store| == |w.store|
    decreases |faults| - t
  {
    if t < |faults| && faults[t].Some? then
      Retried(nf, w.(store := Undone(nf, w, ps, start, end, faults[t].value)), ps, start, end, faults, t + 1)
    else w
  }

  /** The world after a range, with attempts from `t` on. */
  function RangeDone<N, S, I(==), B>(nf: Function<N, S, I, B>, w: World<N, S, I>, ps: seq<Packet<I, B>>, start: nat,
                                     end: nat, faults: seq<Option<Fault<S>>>, t: nat): (r: World<N, S, I>)
    requires IndexOk(w.index, w.store) && start <= end <= |ps| && AllKnown(w.index, ps, start, end)
    ensures r.index == w.index && |r.store| == |w.store|
  {
    var tx := Ran(nf, Retried(nf, w, ps, start, end, faults, t), ps, start, end);
    World(tx.n, tx.store, w.index)
  }

  /** Running the handlers in one transaction is running them one at a time. */
  lemma {:induction false} RanIsAfter<N, S, I, B>(nf: Function<N, S, I, B>, w0: World<N, S, I>, w: World<N, S, I>,
                                                  ps: seq<Packet<I, B>>, start: nat, k: nat)
    requires IndexOk(w0.index, w0.store) && start <= k <= |ps| && w == After(nf, w0, ps[..start])
    requires AllKnown(w.index, ps, start, k)
    ensures var t := Ran(nf, w, ps, start, k); World(t.n, t.store, w.index) == After(nf, w0, ps[..k])
  {
    if start < k {
      RanIsAfter(nf, w0, w, ps, start, k - 1);
      AfterOneMore(nf, w0, ps, k - 1);
    }
  }

  lemma AfterOneMore<N, S, I, B>(nf: Function<N, S, I, B>, w: World<N, S, I>, ps: seq<Packet<I, B>>, k: nat)
    requires IndexOk(w.index, w.store) && k < |ps|
    ensures After(nf, w, ps[..k + 1]) == OutcomeOf(nf, w, ps, k).w
  {
    assert ps[..k + 1][..k] == ps[..k];
  }

  // ---- When a rollback restores the states

  lemma LogOneMore<S>(original: seq<S>, now: seq<S>, log: seq<Saved<S>>, ptr: nat, s: S)
    requires Logged(original, now, log) && ptr < |original| && ptr !in Pointers(log)
    ensures Logged(original, now[ptr := s], log + [Saved(ptr, now[ptr])])
  {
    assert Pointers(log + [Saved(ptr, now[ptr])]) == Pointers(log) + [ptr];
  }

  lemma {:induction false} RanPointers<N, S, I, B>(nf: Function<N, S, I, B>, w: World<N, S, I>, ps: seq<Packet<I, B>>,
                                                   start: nat, k: nat)
    requires IndexOk(w.index, w.store) && start <= k <= |ps| && AllKnown(w.index, ps, start, k)
    ensures Pointers(Ran(nf, w, ps, start, k).log) == StatePointers(w.index, ps, start, k)
  {
    if start < k {
      RanPointers(nf, w, ps, start, k - 1);
    }
  }

  /** With pairwise distinct pointers the log holds the states of the beginning. */
  lemma {:induction false} RanIsLogged<N, S, I, B>(nf: Function<N, S, I, B>, w: World<N, S, I>, ps: seq<Packet<I, B>>,
                                                   start: nat, k: nat)
    requires IndexOk(w.index, w.store) && start <= k <= |ps| && AllKnown(w.index, ps, start, k)
    requires Distinct(StatePointers(w.index, ps, start, k))
    ensures var t := Ran(nf, w, ps, start, k); Logged(w.store, t.store, t.log)
  {
    if start < k {
      var t, s, p := Ran(nf, w, ps, start, k - 1), StatePointers(w.index, ps, start, k - 1), ps[k - 1];
      if p.parsed {
        DistinctLast(s, w.index[p.id]);
        RanPointers(nf, w, ps, start, k - 1);
        RanIsLogged(nf, w, ps, start, k - 1);
        LogOneMore(w.store, t.store, t.log, w.index[p.id], Ran(nf, w, ps, start, k).store[w.index[p.id]]);
      } else {
        assert s + [] == s;
        RanIsLogged(nf, w, ps, start, k - 1);
      }
    }
  }

  lemma DistinctLast(s: seq<int>, x: int)
    requires Distinct(s + [x])
    ensures x !in s && Distinct(s)
  {
    assert forall i :: 0 <= i < |s| ==> (s + [x])[i] == s[i];
    assert (s + [x])[|s|] == x;
  }

  /** A state that is logged may also be garbled. */
  lemma GarbledIsLogged<S>(original: seq<S>, now: seq<S>, log: seq<Saved<S>>, ptr: nat, s: S)
    requires Logged(original, now, log) && ptr < |now| && ptr in Pointers(log)
    ensures Logged(original, now[ptr := s], log)
  {
  }

  /** With pairwise distinct pointers the rollback restores the states, whatever the handlers do, each its
      own way, and whatever the one that gave up has left behind. */
  lemma DistinctLogRestores<N, S, I, B>(nf: Function<N, S, I, B>, w: World<N, S, I>, ps: seq<Packet<I, B>>, start: nat,
                                        end: nat, f: Fault<S>)
    requires IndexOk(w.index, w.store) && start <= end <= |ps| && AllKnown(w.index, ps, start, end)
    requires Distinct(StatePointers(w.index, ps, start, LoggedEnd(ps, start, end, f.at)))
    ensures Undone(nf, w, ps, start, end, f) == w.store
  {
    var l := LoggedEnd(ps, start, end, f.at);
    var t := Ran(nf, w, ps, start, l);
    RanIsLogged(nf, w, ps, start, l);
    RanPointers(nf, w, ps, start, l);
    if GivesUp(ps, start, end, f.at) {
      PacketHasPointer(w.index, ps, start, l, l - 1);
      GarbledIsLogged(w.store, t.store, t.log, w.index[ps[l - 1].id], f.garbage);
    }
    ReplayRestores(w.store, Garbled(nf, w, ps, start, end, f), t.log);
  }

  lemma {:induction false} PacketHasPointer<I, B>(index: map<I, nat>, ps: seq<Packet<I, B>>, start: nat, end: nat,
                                                  i: nat)
    requires start <= i < end <= |ps| && AllKnown(index, ps, start, end) && ps[i].parsed
    ensures index[ps[i].id] in StatePointers(index, ps, start, end)
  {
    if i < end - 1 {
      PacketHasPointer(index, ps, start, end - 1, i);
    }
  }

  lemma {:induction false} PointerOfPacket<I, B>(index: map<I, nat>, ps: seq<Packet<I, B>>, start: nat, end: nat,
                                                 x: int)
    requires start <= end <= |ps| && AllKnown(index, ps, start, end) && x in StatePointers(index, ps, start, end)
    ensures exists i :: start <= i < end && ps[i].parsed && index[ps[i].id] == x
  {
    if start < end && !(ps[end - 1].parsed && index[ps[end - 1].id] == x) {
      PointerOfPacket(index, ps, start, end - 1, x);
    }
  }

  // ---- Handlers that count

  /** The handlers of registered packet sets count their packets. */
  ghost predicate Counts<N(!new), I, B(!new)>(nf: Function<N, int, I, B>) {
    forall n: N, b: B, s: int {:trigger nf.handle(n, b, s)} ::
      nf.handle(n, b, s).0 == n && nf.handle(n, b, s).1 == s + 1
  }

  /** No counter is below the one in `v`. */
  predicate AtLeast(s: seq<int>, v: seq<int>) {
    |s| == |v| && forall p :: 0 <= p < |v| ==> s[p] >= v[p]
  }

  /** What a counting run from `store` logs: a pointer that has been logged before comes with a value that
      is too high. */
  ghost predicate CountLog(store: seq<int>, now: seq<int>, log: seq<Saved<int>>) {
    && AtLeast(now, store)
    && (forall p: nat :: p < |store| && p in Pointers(log) ==> now[p] > store[p])
    && (forall p: nat :: p < |store| && p !in Pointers(log) ==> now[p] == store[p])
    && (forall i :: 0 <= i < |log| ==> log[i].ptr < |store| && log[i].value >= store[log[i].ptr])
    && (forall i, j :: 0 <= i < j < |log| && log[i].ptr == log[j].ptr ==> log[j].value > store[log[j].ptr])
  }

  lemma CountOneMore(store: seq<int>, now: seq<int>, log: seq<Saved<int>>, ptr: nat)
    requires CountLog(store, now, log) && ptr < |store|
    ensures CountLog(store, now[ptr := now[ptr] + 1], log + [Saved(ptr, now[ptr])])
  {
    var log' := log + [Saved(ptr, now[ptr])];
    assert Pointers(log') == Pointers(log) + [ptr];
    forall i | 0 <= i < |log| && log[i].ptr == ptr ensures now[ptr] > store[ptr] {
      assert Pointers(log)[i] == ptr;
    }
  }

  lemma {:induction false} RanCounts<N(!new), I, B(!new)>(nf: Function<N, int, I, B>, w: World<N, int, I>,
                                                          ps: seq<Packet<I, B>>, start: nat, k: nat)
    requires Counts(nf) && IndexOk(w.index, w.store) && start <= k <= |ps| && AllKnown(w.index, ps, start, k)
    ensures var t := Ran(nf, w, ps, start, k); t.n == w.n && CountLog(w.store, t.store, t.log)
  {
    if start < k {
      RanCounts(nf, w, ps, start, k - 1);
      if ps[k - 1].parsed {
        var t := Ran(nf, w, ps, start, k - 1);
        CountOneMore(w.store, t.store, t.log, w.index[ps[k - 1].id]);
      }
    }
  }

  /** Replaying what a counting run has logged: no counter ends too low, and one that was logged twice ends
      too high. */
  lemma ReplayCounts(store: seq<int>, now: seq<int>, x: seq<int>, log: seq<Saved<int>>)
    requires CountLog(store, now, log) && |x| == |now|
    requires forall p: nat :: p < |now| && p !in Pointers(log) ==> x[p] == now[p]
    ensures AtLeast(Replay(x, log), store)
    ensures forall i, j :: 0 <= i < j < |log| && log[i].ptr == log[j].ptr ==>
              Replay(x, log)[log[i].ptr] > store[log[i].ptr]
  {
    forall p: nat | p < |store| ensures Replay(x, log)[p] >= store[p] {
      ReplayValue(x, log, p);
    }
    forall i, j | 0 <= i < j < |log| && log[i].ptr == log[j].ptr
      ensures Replay(x, log)[log[i].ptr] > store[log[i].ptr]
    {
      assert Pointers(log)[j] == log[i].ptr;
      var l := LastOccurrence(Pointers(log), log[i].ptr);
      assert forall m :: 0 <= m < |log| ==> Pointers(log)[m] == log[m].ptr;
      LastWriteWins(x, log, l);
    }
  }

  lemma UndoneCounts<N(!new), I, B(!new)>(nf: Function<N, int, I, B>, w: World<N, int, I>, ps: seq<Packet<I, B>>,
                                          start: nat, end: nat, f: Fault<int>)
    requires Counts(nf) && IndexOk(w.index, w.store) && start <= end <= |ps| && AllKnown(w.index, ps, start, end)
    ensures AtLeast(Undone(nf, w, ps, start, end, f), w.store)
    ensures !Distinct(StatePointers(w.index, ps, start, LoggedEnd(ps, start, end, f.at))) ==>
              exists i :: start <= i < end && ps[i].parsed
                          && Ahead(Undone(nf, w, ps, start, end, f), w.store, w.index[ps[i].id])
  {
    var l := LoggedEnd(ps, start, end, f.at);
    var t, x := Ran(nf, w, ps, start, l), Garbled(nf, w, ps, start, end, f);
    RanCounts(nf, w, ps, start, l);
    RanPointers(nf, w, ps, start, l);
    if GivesUp(ps, start, end, f.at) {
      PacketHasPointer(w.index, ps, start, l, l - 1);
    }
    ReplayCounts(w.store, t.store, x, t.log);
    var ptrs := StatePointers(w.index, ps, start, l);
    if !Distinct(ptrs) {
      var i, m := RepeatedPacket(w.index, ps, start, l, t.log);
      assert Ahead(Undone(nf, w, ps, start, end, f), w.store, w.index[ps[m].id]);
    }
  }

  /** A repeated pointer in the log is one of a packet. */
  lemma RepeatedPacket<S, I, B>(index: map<I, nat>, ps: seq<Packet<I, B>>, start: nat, l: nat, log: seq<Saved<S>>)
    returns (i: nat, m: nat)
    requires start <= l <= |ps| && AllKnown(index, ps, start, l) && Pointers(log) == StatePointers(index, ps, start, l)
    requires !Distinct(StatePointers(index, ps, start, l))
    ensures exists j :: i < j < |log| && log[i].ptr == log[j].ptr
    ensures start <= m < l && ps[m].parsed && i < |log| && log[i].ptr == index[ps[m].id]
  {
    var ptrs := StatePointers(index, ps, start, l);
    var i', j :| 0 <= i' < j < |ptrs| && ptrs[i'] == ptrs[j];
    i := i';
    assert log[i].ptr == Pointers(log)[i] && log[j].ptr == Pointers(log)[j];
    PointerOfPacket(index, ps, start, l, ptrs[i]);
    m :| start <= m < l && ps[m].parsed && index[ps[m].id] == ptrs[i];
  }

  /** Counter `p` is too high. */
  predicate Ahead(s: seq<int>, v: seq<int>, p: nat) {
    p < |s| && p < |v| && s[p] > v[p]
  }

  /** The rollback undoes a counting attempt exactly when the logged pointers are pairwise distinct. */
  lemma RollbackCondition<N(!new), I, B(!new)>(nf: Function<N, int, I, B>, w: World<N, int, I>, ps: seq<Packet<I, B>>,
                                               start: nat, end: nat, f: Fault<int>)
    requires Counts(nf) && IndexOk(w.index, w.store) && start <= end <= |ps| && AllKnown(w.index, ps, start, end)
    ensures Undone(nf, w, ps, start, end, f) == w.store <==>
              Distinct(StatePointers(w.index, ps, start, LoggedEnd(ps, start, end, f.at)))
  {
    if Distinct(StatePointers(w.index, ps, start, LoggedEnd(ps, start, end, f.at))) {
      DistinctLogRestores(nf, w, ps, start, end, f);
    } else {
      UndoneCounts(nf, w, ps, start, end, f);
    }
  }

  // ---- The batch

  /** The attempt after the first one from `t` on that is not aborted. */
  function NextAttempt<S>(faults: seq<Option<Fault<S>>>, t: nat): (t': nat)
    ensures t' > t
    decreases |faults| - t
  {
    if t < |faults| && faults[t].Some? then NextAttempt(faults, t + 1) else t + 1
  }

  /** The world after the rest of a batch from packet `k` and attempt `t` on. */
  function Batch<N, S, I(==), B>(nf: Function<N, S, I, B>, w: World<N, S, I>, ps: seq<Packet<I, B>>,
                                 faults: seq<Option<Fault<S>>>, k: nat, t: nat): World<N, S, I>
    requires IndexOk(w.index, w.store) && k <= |ps|
    decreases |ps| - k
  {
    if k == |ps| then w
    else if !ps[k].parsed then Batch(nf, w, ps, faults, k + 1, t)
    else if ps[k].id !in w.index then Batch(nf, One(nf, w, ps[k]).w, ps, faults, k + 1, NextAttempt(faults, t))
    else
      var end := EndOf(w.index, ps, k + 1);
      Batch(nf, RangeDone(nf, w, ps, k, end, faults, t), ps, faults, end, NextAttempt(faults, t))
  }

  /** Packets whose states are rolled back together. */
  datatype Range = Range(start: nat, end: nat)

  /** What the aborted attempts at a range roll back. */
  function Aborted<S, I, B>(ps: seq<Packet<I, B>>, start: nat, end: nat, faults: seq<Option<Fault<S>>>, t: nat)
    : seq<Range>
    requires start <= end <= |ps|
    decreases |faults| - t
  {
    if t < |faults| && faults[t].Some? then
      [Range(start, LoggedEnd(ps, start, end, faults[t].value.at))] + Aborted(ps, start, end, faults, t + 1)
    else []
  }

  /** What is rolled back from packet `k` and attempt `t` on, when the packets before have had their
      one-at-a-time effects. */
  function RolledBack<N, S, I(==), B>(nf: Function<N, S, I, B>, w: World<N, S, I>, ps: seq<Packet<I, B>>,
                                      faults: seq<Option<Fault<S>>>, k: nat, t: nat): seq<Range>
    requires IndexOk(w.index, w.store) && k <= |ps|
    decreases |ps| - k
  {
    if k == |ps| then []
    else
      var index := After(nf, w, ps[..k]).index;
      if !ps[k].parsed then RolledBack(nf, w, ps, faults, k + 1, t)
      else if ps[k].id !in index then RolledBack(nf, w, ps, faults, k + 1, NextAttempt(faults, t))
      else
        var end := EndOf(index, ps, k + 1);
        Aborted(ps, k, end, faults, t) + RolledBack(nf, w, ps, faults, end, NextAttempt(faults, t))
  }

  /** No two packets of the range share a state. */
  ghost predicate Apart<I, B>(index: map<I, nat>, ps: seq<Packet<I, B>>, r: Range) {
    && r.start <= r.end <= |ps| && AllKnown(index, ps, r.start, r.end)
    && Distinct(StatePointers(index, ps, r.start, r.end))
  }

  /** When the turn of the range comes, no two of its packets share a state. */
  ghost predicate Restorable<N, S, I, B>(nf: Function<N, S, I, B>, w: World<N, S, I>, ps: seq<Packet<I, B>>, r: Range)
    requires IndexOk(w.index, w.store)
  {
    r.start <= |ps| && Apart(After(nf, w, ps[..r.start]).index, ps, r)
  }

  ghost predicate AllRestorable<N, S, I, B>(nf: Function<N, S, I, B>, w: World<N, S, I>, ps: seq<Packet<I, B>>,
                                            rs: seq<Range>)
    requires IndexOk(w.index, w.store)
  {
    forall r :: r in rs ==> Restorable(nf, w, ps, r)
  }

  /** The condition for a batch: whatever is rolled back can be restored. */
  ghost predicate Safe<N, S, I, B>(nf: Function<N, S, I, B>, w: World<N, S, I>, ps: seq<Packet<I, B>>,
                                   faults: seq<Option<Fault<S>>>)
    requires IndexOk(w.index, w.store)
  {
    AllRestorable(nf, w, ps, RolledBack(nf, w, ps, faults, 0, 0))
  }

  ghost predicate AllApart<I, B>(index: map<I, nat>, ps: seq<Packet<I, B>>, rs: seq<Range>) {
    forall r :: r in rs ==> Apart(index, ps, r)
  }

  lemma {:induction false} AbortedAre<S, I, B>(ps: seq<Packet<I, B>>, start: nat, end: nat,
                                               faults: seq<Option<Fault<S>>>, t: nat, r: Range)
    requires start <= end <= |ps| && r in Aborted(ps, start, end, faults, t)
    ensures start == r.start <= r.end <= end
    decreases |faults| - t
  {
    if r in Aborted(ps, start, end, faults, t + 1) {
      AbortedAre(ps, start, end, faults, t + 1, r);
    }
  }

  /** One step of `RolledBack` at a range. */
  lemma RolledBackAtRange<N, S, I, B>(nf: Function<N, S, I, B>, w: World<N, S, I>, ps: seq<Packet<I, B>>,
                                      faults: seq<Option<Fault<S>>>, k: nat, t: nat)
    requires IndexOk(w.index, w.store) && k < |ps| && ps[k].parsed
    requires ps[k].id in After(nf, w, ps[..k]).index
    ensures var index := After(nf, w, ps[..k]).index;
            var end := EndOf(index, ps, k + 1);
            AllRestorable(nf, w, ps, RolledBack(nf, w, ps, faults, k, t)) <==>
              && AllApart(index, ps, Aborted(ps, k, end, faults, t))
              && AllRestorable(nf, w, ps, RolledBack(nf, w, ps, faults, end, NextAttempt(faults, t)))
  {
    var index := After(nf, w, ps[..k]).index;
    var end := EndOf(index, ps, k + 1);
    var now := Aborted(ps, k, end, faults, t);
    forall r | r in now ensures Restorable(nf, w, ps, r) <==> Apart(index, ps, r) {
      AbortedAre(ps, k, end, faults, t, r);
    }
    assert forall r :: r in RolledBack(nf, w, ps, faults, k, t) <==>
                         r in now || r in RolledBack(nf, w, ps, faults, end, NextAttempt(faults, t));
  }

  lemma {:induction false} RetriedRestored<N, S, I, B>(nf: Function<N, S, I, B>, w: World<N, S, I>,
      ps: seq<Packet<I, B>>, start: nat, end: nat, faults: seq<Option<Fault<S>>>, t: nat)
    requires IndexOk(w.index, w.store) && start <= end <= |ps| && AllKnown(w.index, ps, start, end)
    requires AllApart(w.index, ps, Aborted(ps, start, end, faults, t))
    ensures Retried(nf, w, ps, start, end, faults, t) == w
    decreases |faults| - t
  {
    if t < |faults| && faults[t].Some? {
      var r := Range(start, LoggedEnd(ps, start, end, faults[t].value.at));
      assert r in Aborted(ps, start, end, faults, t);
      DistinctLogRestores(nf, w, ps, start, end, faults[t].value);
      RetriedRestored(nf, w, ps, start, end, faults, t + 1);
    }
  }

  lemma {:induction false} AfterBoth<N, S, I, B>(nf: Function<N, S, I, B>, w: World<N, S, I>, ps: seq<Packet<I, B>>,
                                                 start: nat, k: nat)
    requires IndexOk(w.index, w.store) && start <= k <= |ps|
    requires AllKnown(w.index, ps, start, k)
    ensures var t := Ran(nf, w, ps, start, k); World(t.n, t.store, w.index) == After(nf, w, ps[start..k])
  {
    if start < k {
      AfterBoth(nf, w, ps, start, k - 1);
      assert ps[start..k][..k - 1 - start] == ps[start..k - 1];
    }
  }

  /** A range has the effect of processing its packets one at a time. */
  lemma RangeIsSequential<N, S, I, B>(nf: Function<N, S, I, B>, w: World<N, S, I>, ps: seq<Packet<I, B>>, start: nat,
                                      end: nat, faults: seq<Option<Fault<S>>>, t: nat)
    requires IndexOk(w.index, w.store) && start <= end <= |ps| && AllKnown(w.index, ps, start, end)
    ensures AllApart(w.index, ps, Aborted(ps, start, end, faults, t)) ==>
              RangeDone(nf, w, ps, start, end, faults, t) == After(nf, w, ps[start..end])
  {
    if AllApart(w.index, ps, Aborted(ps, start, end, faults, t)) {
      RetriedRestored(nf, w, ps, start, end, faults, t);
      AfterBoth(nf, w, ps, start, end);
    }
  }

  /** The batch has the effect of processing the packets one at a time. */
  lemma {:induction false} SafeIsSequential<N, S, I, B>(nf: Function<N, S, I, B>, w0: World<N, S, I>, w: World<N, S, I>,
      ps: seq<Packet<I, B>>, faults: seq<Option<Fault<S>>>, k: nat, t: nat)
    requires IndexOk(w0.index, w0.store) && k <= |ps| && w == After(nf, w0, ps[..k])
    requires AllRestorable(nf, w0, ps, RolledBack(nf, w0, ps, faults, k, t))
    ensures Batch(nf, w, ps, faults, k, t) == After(nf, w0, ps)
    decreases |ps| - k
  {
    if k == |ps| {
      assert ps[..|ps|] == ps;
    } else {
      AfterOneMore(nf, w0, ps, k);
      if !ps[k].parsed {
        SafeIsSequential(nf, w0, w, ps, faults, k + 1, t);
      } else if ps[k].id !in w.index {
        SafeIsSequential(nf, w0, One(nf, w, ps[k]).w, ps, faults, k + 1, NextAttempt(faults, t));
      } else {
        var end := EndOf(w.index, ps, k + 1);
        RolledBackAtRange(nf, w0, ps, faults, k, t);
        RetriedRestored(nf, w, ps, k, end, faults, t);
        RanIsAfter(nf, w0, w, ps, k, end);
        SafeIsSequential(nf, w0, RangeDone(nf, w, ps, k, end, faults, t), ps, faults, end, NextAttempt(faults, t));
      }
    }
  }

  // ---- A counting batch that is not safe

  /** `w` differs from `v` in counters that are too high. */
  predicate Above<N, I(==)>(w: World<N, int, I>, v: World<N, int, I>) {
    w.index == v.index && AtLeast(w.store, v.store)
  }

  /** The counter of a registered packet set is too high. */
  ghost predicate Leads<N, I>(w: World<N, int, I>, v: World<N, int, I>) {
    exists id :: id in w.index && Ahead(w.store, v.store, w.index[id])
  }

  lemma UnknownKeepsLead<N, I(!new), B>(nf: Function<N, int, I, B>, w: World<N, int, I>, v: World<N, int, I>,
                                        p: Packet<I, B>)
    requires IndexOk(w.index, w.store) && Above(w, v) && w.n == v.n && FreshPlaces(nf)
    requires p.parsed && p.id !in w.index
    ensures var w', v' := One(nf, w, p).w, One(nf, v, p).w;
            Above(w', v') && w'.n == v'.n && (Leads(w, v) ==> Leads(w', v'))
  {
    if Leads(w, v) {
      var id :| id in w.index && Ahead(w.store, v.store, w.index[id]);
      assert Ahead(One(nf, w, p).w.store, One(nf, v, p).w.store, One(nf, w, p).w.index[id]);
    }
  }

  lemma {:induction false} RanKeepsLead<N(!new), I, B(!new)>(nf: Function<N, int, I, B>, w: World<N, int, I>,
      v: World<N, int, I>, ps: seq<Packet<I, B>>, start: nat, k: nat)
    requires Counts(nf) && IndexOk(w.index, w.store) && Above(w, v)
    requires start <= k <= |ps| && AllKnown(w.index, ps, start, k)
    ensures var s, s' := Ran(nf, w, ps, start, k).store, Ran(nf, v, ps, start, k).store;
            AtLeast(s, s') && forall p: nat :: Ahead(w.store, v.store, p) ==> Ahead(s, s', p)
    ensures Ran(nf, w, ps, start, k).n == w.n && Ran(nf, v, ps, start, k).n == v.n
  {
    if start < k {
      RanKeepsLead(nf, w, v, ps, start, k - 1);
    }
  }

  lemma {:induction false} RetriedGrows<N(!new), I, B(!new)>(nf: Function<N, int, I, B>, w: World<N, int, I>,
      ps: seq<Packet<I, B>>, start: nat, end: nat, faults: seq<Option<Fault<int>>>, t: nat)
    requires Counts(nf) && IndexOk(w.index, w.store) && start <= end <= |ps| && AllKnown(w.index, ps, start, end)
    ensures Above(Retried(nf, w, ps, start, end, faults, t), w)
    ensures !AllApart(w.index, ps, Aborted(ps, start, end, faults, t)) ==>
              Leads(Retried(nf, w, ps, start, end, faults, t), w)
    decreases |faults| - t
  {
    if t < |faults| && faults[t].Some? {
      var f := faults[t].value;
      var w1, w2 := w.(store := Undone(nf, w, ps, start, end, f)), Retried(nf, w, ps, start, end, faults, t);
      UndoneCounts(nf, w, ps, start, end, f);
      RetriedGrows(nf, w1, ps, start, end, faults, t + 1);
      if !Apart(w.index, ps, Range(start, LoggedEnd(ps, start, end, f.at))) {
        var i :| start <= i < end && ps[i].parsed && Ahead(w1.store, w.store, w.index[ps[i].id]);
        assert Ahead(w2.store, w.store, w.index[ps[i].id]);
      } else if Leads(w2, w1) {
        var id :| id in w2.index && Ahead(w2.store, w1.store, w2.index[id]);
        assert Ahead(w2.store, w.store, w2.index[id]);
      }
    }
  }

  lemma RangeKeepsLead<N(!new), I, B(!new)>(nf: Function<N, int, I, B>, w0: World<N, int, I>, w: World<N, int, I>,
      ps: seq<Packet<I, B>>, k: nat, end: nat, faults: seq<Option<Fault<int>>>, t: nat)
    requires Counts(nf) && IndexOk(w0.index, w0.store) && k <= end <= |ps|
    requires var v := After(nf, w0, ps[..k]); Above(w, v) && w.n == v.n && AllKnown(w.index, ps, k, end)
    ensures var w', v' := RangeDone(nf, w, ps, k, end, faults, t), After(nf, w0, ps[..end]);
            && Above(w', v') && w'.n == v'.n
            && (Leads(w, After(nf, w0, ps[..k])) || !AllApart(w.index, ps, Aborted(ps, k, end, faults, t)) ==>
                  Leads(w', v'))
  {
    var v, r := After(nf, w0, ps[..k]), Retried(nf, w, ps, k, end, faults, t);
    RetriedGrows(nf, w, ps, k, end, faults, t);
    RanIsAfter(nf, w0, v, ps, k, end);
    RanKeepsLead(nf, r, v, ps, k, end);
    if Leads(w, v) {
      var id :| id in w.index && Ahead(w.store, v.store, w.index[id]);
      assert Ahead(r.store, v.store, r.index[id]);
    } else if Leads(r, w) {
      var id :| id in r.index && Ahead(r.store, w.store, r.index[id]);
      assert Ahead(r.store, v.store, r.index[id]);
    }
  }

  lemma {:induction false} BatchKeepsLead<N(!new), I(!new), B(!new)>(nf: Function<N, int, I, B>, w0: World<N, int, I>,
      w: World<N, int, I>, ps: seq<Packet<I, B>>, faults: seq<Option<Fault<int>>>, k: nat, t: nat)
    requires Counts(nf) && FreshPlaces(nf) && IndexOk(w0.index, w0.store) && k <= |ps|
    requires var v := After(nf, w0, ps[..k]); Above(w, v) && w.n == v.n
    requires Leads(w, After(nf, w0, ps[..k])) || !AllRestorable(nf, w0, ps, RolledBack(nf, w0, ps, faults, k, t))
    ensures Leads(Batch(nf, w, ps, faults, k, t), After(nf, w0, ps))
    decreases |ps| - k
  {
    if k == |ps| {
      assert ps[..|ps|] == ps;
    } else {
      var v := After(nf, w0, ps[..k]);
      AfterOneMore(nf, w0, ps, k);
      if !ps[k].parsed {
        BatchKeepsLead(nf, w0, w, ps, faults, k + 1, t);
      } else if ps[k].id !in w.index {
        UnknownKeepsLead(nf, w, v, ps[k]);
        BatchKeepsLead(nf, w0, One(nf, w, ps[k]).w, ps, faults, k + 1, NextAttempt(faults, t));
      } else {
        var end := EndOf(w.index, ps, k + 1);
        RolledBackAtRange(nf, w0, ps, faults, k, t);
        RangeKeepsLead(nf, w0, w, ps, k, end, faults, t);
        BatchKeepsLead(nf, w0, RangeDone(nf, w, ps, k, end, faults, t), ps, faults, end, NextAttempt(faults, t));
      }
    }
  }

  /** A batch with counting handlers ends as if its packets were processed one at a time exactly when, in
      everything that is rolled back, no two packets share a state. */
  lemma BatchCondition<N(!new), I(!new), B(!new)>(nf: Function<N, int, I, B>, w: World<N, int, I>,
                                                  ps: seq<Packet<I, B>>, faults: seq<Option<Fault<int>>>)
    requires Counts(nf) && FreshPlaces(nf) && IndexOk(w.index, w.store)
    ensures Batch(nf, w, ps, faults, 0, 0) == After(nf, w, ps) <==> Safe(nf, w, ps, faults)
  {
    assert ps[..0] == [];
    if Safe(nf, w, ps, faults) {
      SafeIsSequential(nf, w, w, ps, faults, 0, 0);
    } else {
      BatchKeepsLead(nf, w, w, ps, faults, 0, 0);
    }
  }

  /** Two packets of one packet set, and an abort at the end of their transaction: the counter goes up by
      three. */
  lemma TwoCountedAsThree<N(!new), B(!new)>(nf: Function<N, int, nat, B>, n: N, b: B)
    requires Counts(nf)
    ensures var w, ps := World(n, [0], map[0 := 0]), [Packet(0, true, b), Packet(0, true, b)];
            && After(nf, w, ps).store == [2]
            && Batch(nf, w, ps, [Some(Fault(2, 0, None))], 0, 0).store == [3]
  {
    var w: World<N, int, nat>, f := World(n, [0], map[0 := 0]), Fault(2, 0, None);
    var ps: seq<Packet<nat, B>>, faults := [Packet(0, true, b), Packet(0, true, b)], [Some(f)];
    CountTwice(nf, w, ps, 0);
    assert ps[..0] == [] && ps[..2] == ps;
    RanIsAfter(nf, w, w, ps, 0, 2);
    assert EndOf(w.index, ps, 2) == 2;
    UndoneTwice(nf, w, ps, faults, f);
    var r := w.(store := [1]);
    CountTwice(nf, r, ps, 1);
    assert RangeDone(nf, w, ps, 0, 2, faults, 0).store == [3];
  }

  lemma UndoneTwice<N(!new), B(!new)>(nf: Function<N, int, nat, B>, w: World<N, int, nat>, ps: seq<Packet<nat, B>>,
                                      faults: seq<Option<Fault<int>>>, f: Fault<int>)
    requires Counts(nf) && w.store == [0] && w.index == map[0 := 0] && f.at == 2 && faults == [Some(f)]
    requires |ps| == 2 && ps[0].parsed && ps[1].parsed && ps[0].id == ps[1].id == 0
    ensures Retried(nf, w, ps, 0, 2, faults, 0) == w.(store := [1])
  {
    CountTwice(nf, w, ps, 0);
    var t, one := Ran(nf, w, ps, 0, 2), [Saved(0, 0)];
    assert Replay(t.store, []) == [2];
    assert one[..0] == [] && t.log[..1] == one;
    assert Replay(t.store, one) == [0];
    assert Undone(nf, w, ps, 0, 2, f) == [1];
    assert Retried(nf, w.(store := [1]), ps, 0, 2, faults, 1) == w.(store := [1]);
  }

  lemma CountTwice<N(!new), B(!new)>(nf: Function<N, int, nat, B>, w: World<N, int, nat>, ps: seq<Packet<nat, B>>,
                                     s: int)
    requires Counts(nf) && w.store == [s] && w.index == map[0 := 0]
    requires |ps| == 2 && ps[0].parsed && ps[1].parsed && ps[0].id == ps[1].id == 0
    ensures Ran(nf, w, ps, 0, 2) == Tx(w.n, [s + 2], [Saved(0, s), Saved(0, s + 1)])
  {
    assert Ran(nf, w, ps, 0, 0) == Tx(w.n, [s], []);
    assert Ran(nf, w, ps, 0, 1) == Tx(w.n, [s + 1], [Saved(0, s)]);
  }

  // ---- Batches that are safe

  /** A new packet set gets storage that no other one uses. */
  ghost predicate FreshPlaces<N, S, I(!new), B>(nf: Function<N, S, I, B>) {
    forall m: map<I, nat> {:trigger nf.place(m)} :: forall id :: id in m ==> m[id] != nf.place(m)
  }

  ghost predicate Injective<I(!new)>(index: map<I, nat>) {
    forall x, y :: x in index && y in index && x != y ==> index[x] != index[y]
  }

  ghost predicate DistinctIdsIn<I, B>(ps: seq<Packet<I, B>>, start: nat, end: nat)
    requires start <= end <= |ps|
  {
    forall i, j :: start <= i < j < end && ps[i].parsed && ps[j].parsed ==> ps[i].id != ps[j].id
  }

  ghost predicate DistinctIds<I, B>(ps: seq<Packet<I, B>>) {
    DistinctIdsIn(ps, 0, |ps|)
  }

  /** The packets of a range have different states exactly when they belong to different packet sets. */
  lemma {:induction false} DistinctIdsDistinctStates<I(!new), B>(index: map<I, nat>, ps: seq<Packet<I, B>>,
                                                                 start: nat, end: nat)
    requires start <= end <= |ps| && AllKnown(index, ps, start, end) && Injective(index)
    ensures DistinctIdsIn(ps, start, end) <==> Distinct(StatePointers(index, ps, start, end))
  {
    if start < end {
      DistinctIdsDistinctStates(index, ps, start, end - 1);
      var p, s := ps[end - 1], StatePointers(index, ps, start, end - 1);
      if !p.parsed {
        assert s + [] == s;
      } else if index[p.id] in s {
        PointerOfPacket(index, ps, start, end - 1, index[p.id]);
        RepeatedLast(s, index[p.id]);
      } else {
        DistinctWithLast(s, index[p.id]);
        forall i | start <= i < end - 1 && ps[i].parsed ensures ps[i].id != p.id {
          PacketHasPointer(index, ps, start, end - 1, i);
        }
      }
    }
  }

  lemma RepeatedLast(s: seq<int>, x: int)
    requires x in s
    ensures !Distinct(s + [x])
  {
    var i :| 0 <= i < |s| && s[i] == x;
    assert (s + [x])[i] == (s + [x])[|s|];
  }

  lemma DistinctWithLast(s: seq<int>, x: int)
    requires x !in s
    ensures Distinct(s + [x]) <==> Distinct(s)
  {
    assert forall i :: 0 <= i < |s| ==> (s + [x])[i] == s[i];
  }

  lemma {:induction false} StaysInjective<N, S, I(!new), B>(nf: Function<N, S, I, B>, w: World<N, S, I>,
                                                            ps: seq<Packet<I, B>>)
    requires IndexOk(w.index, w.store) && FreshPlaces(nf) && Injective(w.index)
    ensures Injective(After(nf, w, ps).index)
  {
    if ps != [] {
      StaysInjective(nf, w, ps[..|ps| - 1]);
    }
  }

  /** With injective storage a caller can tell from the packets alone: a range can be rolled back exactly
      when its packets belong to pairwise distinct packet sets. */
  lemma RestorableIsDistinctIds<N, S, I(!new), B>(nf: Function<N, S, I, B>, w: World<N, S, I>, ps: seq<Packet<I, B>>,
                                                  r: Range)
    requires IndexOk(w.index, w.store) && FreshPlaces(nf) && Injective(w.index) && r.start <= r.end <= |ps|
    requires AllKnown(After(nf, w, ps[..r.start]).index, ps, r.start, r.end)
    ensures Restorable(nf, w, ps, r) <==> DistinctIdsIn(ps, r.start, r.end)
  {
    StaysInjective(nf, w, ps[..r.start]);
    DistinctIdsDistinctStates(After(nf, w, ps[..r.start]).index, ps, r.start, r.end);
  }

  lemma {:induction false} RolledBackAreKnown<N, S, I, B>(nf: Function<N, S, I, B>, w: World<N, S, I>,
      ps: seq<Packet<I, B>>, faults: seq<Option<Fault<S>>>, k: nat, t: nat, r: Range)
    requires IndexOk(w.index, w.store) && k <= |ps| && r in RolledBack(nf, w, ps, faults, k, t)
    ensures k <= r.start <= r.end <= |ps| && AllKnown(After(nf, w, ps[..r.start]).index, ps, r.start, r.end)
    ensures exists j :: 0 <= j < |faults| && faults[j].Some?
    decreases |ps| - k
  {
    var index, t' := After(nf, w, ps[..k]).index, NextAttempt(faults, t);
    if !ps[k].parsed || ps[k].id !in index {
      RolledBackAreKnown(nf, w, ps, faults, k + 1, if ps[k].parsed then t' else t, r);
    } else if r in Aborted(ps, k, EndOf(index, ps, k + 1), faults, t) {
      AbortedAre(ps, k, EndOf(index, ps, k + 1), faults, t, r);
    } else {
      RolledBackAreKnown(nf, w, ps, faults, EndOf(index, ps, k + 1), t', r);
    }
  }

  /** Without aborts nothing is rolled back. */
  lemma NothingToRollBack<N, S, I, B>(nf: Function<N, S, I, B>, w: World<N, S, I>, ps: seq<Packet<I, B>>,
                                      faults: seq<Option<Fault<S>>>)
    requires IndexOk(w.index, w.store) && forall j :: 0 <= j < |faults| ==> faults[j].None?
    ensures Safe(nf, w, ps, faults)
  {
    forall r | r in RolledBack(nf, w, ps, faults, 0, 0) ensures false {
      RolledBackAreKnown(nf, w, ps, faults, 0, 0, r);
    }
  }

  /** Packet `m` belongs to no registered packet set when its turn comes. */
  ghost predicate Breaks<N, S, I, B>(nf: Function<N, S, I, B>, w: World<N, S, I>, ps: seq<Packet<I, B>>, m: nat)
    requires IndexOk(w.index, w.store) && m < |ps|
  {
    ps[m].parsed && ps[m].id !in After(nf, w, ps[..m]).index
  }

  lemma {:induction false} StaysRegistered<N, S, I, B>(nf: Function<N, S, I, B>, w: World<N, S, I>,
                                                       ps: seq<Packet<I, B>>, k: nat, m: nat, id: I)
    requires IndexOk(w.index, w.store) && k <= m <= |ps| && id in After(nf, w, ps[..k]).index
    ensures id in After(nf, w, ps[..m]).index
  {
    if k < m {
      StaysRegistered(nf, w, ps, k, m - 1, id);
      AfterOneMore(nf, w, ps, m - 1);
    }
  }

  /** A packet set may come again in the batch, as long as a packet of an unknown one comes in between. */
  lemma RepeatsApart<N, S, I(!new), B>(nf: Function<N, S, I, B>, w: World<N, S, I>, ps: seq<Packet<I, B>>,
                                       faults: seq<Option<Fault<S>>>)
    requires IndexOk(w.index, w.store) && FreshPlaces(nf) && Injective(w.index)
    requires forall i, j :: 0 <= i < j < |ps| && ps[i].parsed && ps[j].parsed && ps[i].id == ps[j].id ==>
               exists m :: i < m < j && Breaks(nf, w, ps, m)
    ensures Safe(nf, w, ps, faults)
  {
    forall r | r in RolledBack(nf, w, ps, faults, 0, 0) ensures Restorable(nf, w, ps, r) {
      RolledBackAreKnown(nf, w, ps, faults, 0, 0, r);
      forall m: nat | r.start <= m < r.end ensures !Breaks(nf, w, ps, m) {
        if ps[m].parsed {
          StaysRegistered(nf, w, ps, r.start, m, ps[m].id);
        }
      }
      RestorableIsDistinctIds(nf, w, ps, r);
    }
  }

  /** No aborts, or no packet set twice in the batch. */
  lemma SimplySafe<N, S, I(!new), B>(nf: Function<N, S, I, B>, w: World<N, S, I>, ps: seq<Packet<I, B>>,
                                     faults: seq<Option<Fault<S>>>)
    requires IndexOk(w.index, w.store)
    ensures (forall j :: 0 <= j < |faults| ==> faults[j].None?) ==> Safe(nf, w, ps, faults)
    ensures FreshPlaces(nf) && Injective(w.index) && DistinctIds(ps) ==> Safe(nf, w, ps, faults)
  {
    if forall j :: 0 <= j < |faults| ==> faults[j].None? {
      NothingToRollBack(nf, w, ps, faults);
    } else if FreshPlaces(nf) && Injective(w.index) && DistinctIds(ps) {
      RepeatsApart(nf, w, ps, faults);
    }
  }

  // ---- What a caller sees of one-at-a-time processing

  /** Only entry `p` may differ. */
  ghost predicate OthersStay<S>(store: seq<S>, store': seq<S>, p: nat) {
    |store'| == |store| && forall q :: 0 <= q < |store| && q != p ==> store'[q] == store[q]
  }

  /** A registered packet set's state is what the handler makes of it. */
  ghost predicate HandledIn<N, S, I, B>(nf: Function<N, S, I, B>, w: World<N, S, I>, w': World<N, S, I>,
                                        p: Packet<I, B>)
    requires p.id in w.index
  {
    var ptr := w.index[p.id];
    && ptr < |w.store| && OthersStay(w.store, w'.store, ptr) && w'.index == w.index
    && w'.n == nf.handle(w.n, p.body, w.store[ptr]).0
    && w'.store[ptr] == nf.handle(w.n, p.body, w.store[ptr]).1
  }

  /** Another packet set is entered with the state that its handler chooses, if it chooses one and there is
      room; else nothing changes but the handler's own state. */
  ghost predicate MetIn<N, S, I, B>(nf: Function<N, S, I, B>, w: World<N, S, I>, w': World<N, S, I>, p: Packet<I, B>) {
    var state, ptr := nf.unknown(w.n, p.body).1, nf.place(w.index);
    && w'.n == nf.unknown(w.n, p.body).0
    && if state.Some? && ptr < |w.store|
       then OthersStay(w.store, w'.store, ptr) && w'.store[ptr] == state.value && w'.index == w.index[p.id := ptr]
       else w'.store == w.store && w'.index == w.index
  }

  ghost predicate Effect<N, S, I, B>(nf: Function<N, S, I, B>, w: World<N, S, I>, w': World<N, S, I>, p: Packet<I, B>) {
    if !p.parsed then w' == w
    else if p.id in w.index then HandledIn(nf, w, w', p)
    else MetIn(nf, w, w', p)
  }

  /** The output device is the one that the packet's handler chooses, if it chooses one. */
  ghost predicate SentTo<N, S, I, B>(nf: Function<N, S, I, B>, w: World<N, S, I>, p: Packet<I, B>, device: nat) {
    if !p.parsed then device == nf.device
    else if p.id in w.index
    then w.index[p.id] < |w.store| && device == nf.handle(w.n, p.body, w.store[w.index[p.id]]).2
    else nf.unknown(w.n, p.body).2.Some? ==> device == nf.unknown(w.n, p.body).2.value
  }

  ghost predicate EffectAt<N, S, I, B>(nf: Function<N, S, I, B>, ps: seq<Packet<I, B>>, worlds: seq<World<N, S, I>>,
                                       i: nat) {
    i < |ps| && i + 1 < |worlds| && Effect(nf, worlds[i], worlds[i + 1], ps[i])
  }

  /** The worlds before, between and after the packets. */
  ghost predicate OneByOne<N, S, I, B>(nf: Function<N, S, I, B>, ps: seq<Packet<I, B>>, worlds: seq<World<N, S, I>>) {
    && |worlds| == |ps| + 1
    && forall i: nat {:trigger EffectAt(nf, ps, worlds, i)} :: i < |ps| ==> EffectAt(nf, ps, worlds, i)
  }

  function Worlds<N, S, I(==), B>(nf: Function<N, S, I, B>, w: World<N, S, I>, ps: seq<Packet<I, B>>)
    : (r: seq<World<N, S, I>>)
    requires IndexOk(w.index, w.store)
    ensures |r| == |ps| + 1
  {
    seq(|ps| + 1, i requires 0 <= i <= |ps| => After(nf, w, ps[..i]))
  }

  lemma OneHasEffect<N, S, I, B>(nf: Function<N, S, I, B>, w: World<N, S, I>, p: Packet<I, B>)
    requires IndexOk(w.index, w.store)
    ensures Effect(nf, w, One(nf, w, p).w, p)
    ensures One(nf, w, p).firm ==> SentTo(nf, w, p, One(nf, w, p).device)
    ensures !One(nf, w, p).firm ==> forall device: nat :: SentTo(nf, w, p, device)
  {
  }

  /** One-at-a-time processing does to each packet what its handler says. */
  lemma AfterIsOneByOne<N, S, I, B>(nf: Function<N, S, I, B>, w: World<N, S, I>, ps: seq<Packet<I, B>>)
    requires IndexOk(w.index, w.store)
    ensures OneByOne(nf, ps, Worlds(nf, w, ps))
    ensures Worlds(nf, w, ps)[0] == w && Worlds(nf, w, ps)[|ps|] == After(nf, w, ps)
  {
    assert ps[..|ps|] == ps;
    forall i: nat | i < |ps| ensures EffectAt(nf, ps, Worlds(nf, w, ps), i) {
      AfterOneMore(nf, w, ps, i);
      OneHasEffect(nf, After(nf, w, ps[..i]), ps[i]);
    }
  }

  /** No packet set shares its state with another one. */
  lemma {:induction false} StatesStayApart<N, S, I(!new), B>(nf: Function<N, S, I, B>, ps: seq<Packet<I, B>>,
                                                             worlds: seq<World<N, S, I>>, i: nat)
    requires OneByOne(nf, ps, worlds) && FreshPlaces(nf) && Injective(worlds[0].index) && i <= |ps|
    ensures Injective(worlds[i].index)
  {
    if i > 0 {
      StatesStayApart(nf, ps, worlds, i - 1);
      assert EffectAt(nf, ps, worlds, i - 1);
    }
  }

  /** Between two packets of a registered packet set, it stays registered, and its state stays as it is. */
  lemma {:induction false} StateIsKept<N, S, I(!new), B>(nf: Function<N, S, I, B>, ps: seq<Packet<I, B>>,
                                                         worlds: seq<World<N, S, I>>, i: nat, j: nat, id: I)
    requires OneByOne(nf, ps, worlds) && FreshPlaces(nf) && Injective(worlds[0].index) && i <= j <= |ps|
    requires id in worlds[i].index && worlds[i].index[id] < |worlds[i].store|
    requires forall k :: i <= k < j && ps[k].parsed ==> ps[k].id != id
    ensures id in worlds[j].index && worlds[j].index[id] == worlds[i].index[id]
    ensures |worlds[j].store| == |worlds[i].store|
    ensures worlds[j].store[worlds[i].index[id]] == worlds[i].store[worlds[i].index[id]]
  {
    if i < j {
      StateIsKept(nf, ps, worlds, i, j - 1, id);
      StatesStayApart(nf, ps, worlds, j - 1);
      assert EffectAt(nf, ps, worlds, j - 1);
    }
  }

  /** A packet set that a packet's handler registers with state `s`: the next packet of the packet set is handled
      with `s`. */
  lemma NextIsHandled<N, S, I(!new), B>(nf: Function<N, S, I, B>, ps: seq<Packet<I, B>>, worlds: seq<World<N, S, I>>,
                                        i: nat, j: nat, s: S)
    requires OneByOne(nf, ps, worlds) && FreshPlaces(nf) && Injective(worlds[0].index) && i < j < |ps|
    requires ps[i].parsed && ps[j].parsed && ps[j].id == ps[i].id && ps[i].id !in worlds[i].index
    requires nf.unknown(worlds[i].n, ps[i].body).1 == Some(s) && nf.place(worlds[i].index) < |worlds[i].store|
    requires forall k :: i < k < j && ps[k].parsed ==> ps[k].id != ps[i].id
    ensures var ptr := nf.place(worlds[i].index);
            && ps[i].id in worlds[j].index && worlds[j].index[ps[i].id] == ptr < |worlds[j + 1].store|
            && worlds[j + 1].n == nf.handle(worlds[j].n, ps[j].body, s).0
            && worlds[j + 1].store[ptr] == nf.handle(worlds[j].n, ps[j].body, s).1
    ensures forall device: nat :: SentTo(nf, worlds[j], ps[j], device) <==>
              device == nf.handle(worlds[j].n, ps[j].body, s).2
  {
    assert EffectAt(nf, ps, worlds, i);
    StateIsKept(nf, ps, worlds, i + 1, j, ps[i].id);
    assert EffectAt(nf, ps, worlds, j);
  }
}
