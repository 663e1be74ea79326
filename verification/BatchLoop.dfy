/** The batched packet loop of src/data-plane.c, which updates the states in place. */
module BatchLoop {
  import opened BatchModel

  /** The device of packet `i` is the one of one-at-a-time processing, when its handler chooses it. */
  ghost predicate DeviceOk<N, S, I, B>(nf: Function<N, S, I, B>, w: World<N, S, I>, ps: seq<Packet<I, B>>,
                                           i: nat, device: nat)
    requires IndexOk(w.index, w.store) && i < |ps|
  {
    OutcomeOf(nf, w, ps, i).firm ==> device == OutcomeOf(nf, w, ps, i).device
  }

  /** The output device after the handlers of the packets from `start` up to `k` have run. */
  ghost predicate Sent<N, S, I, B>(nf: Function<N, S, I, B>, w: World<N, S, I>, ps: seq<Packet<I, B>>, start: nat,
                                     k: nat, i: nat, before: nat, now: nat)
    requires IndexOk(w.index, w.store) && start <= k <= |ps| && AllKnown(w.index, ps, start, k) && i < |ps|
  {
    now == if start <= i < k && ps[i].parsed then DeviceIn(nf, w, ps, start, i) else before
  }

  /** Of a safe batch, the first `k` packets have had their one-at-a-time effects, and have got the output
      devices that their handlers choose; what is still to be rolled back can be restored. */
  ghost predicate SafeSoFar<N, S, I, B>(nf: Function<N, S, I, B>, w: World<N, S, I>, v: World<N, S, I>,
                                        ps: seq<Packet<I, B>>, faults: seq<Option<Fault<S>>>, k: nat, t: nat,
                                        dst: seq<nat>)
    requires IndexOk(w.index, w.store) && k <= |ps| == |dst|
  {
    && v == After(nf, w, ps[..k]) && AllRestorable(nf, w, ps, RolledBack(nf, w, ps, faults, k, t))
    && (forall i {:trigger DeviceOk(nf, w, ps, i, dst[i])} :: 0 <= i < k ==> DeviceOk(nf, w, ps, i, dst[i]))
    && forall i :: k <= i < |ps| ==> dst[i] == nf.device
  }

  lemma UnparsedStep<N, S, I, B>(nf: Function<N, S, I, B>, w: World<N, S, I>, v: World<N, S, I>, ps: seq<Packet<I, B>>,
                                 faults: seq<Option<Fault<S>>>, k: nat, t: nat, dst: seq<nat>)
    requires IndexOk(w.index, w.store) && k < |ps| == |dst| && !ps[k].parsed
    requires SafeSoFar(nf, w, v, ps, faults, k, t, dst)
    ensures SafeSoFar(nf, w, v, ps, faults, k + 1, t, dst)
  {
    AfterOneMore(nf, w, ps, k);
  }

  lemma UnknownStep<N, S, I, B>(nf: Function<N, S, I, B>, w: World<N, S, I>, v: World<N, S, I>, ps: seq<Packet<I, B>>,
                                faults: seq<Option<Fault<S>>>, k: nat, t: nat, dst: seq<nat>, device: nat)
    requires IndexOk(w.index, w.store) && k < |ps| == |dst| && ps[k].parsed && ps[k].id !in v.index
    requires SafeSoFar(nf, w, v, ps, faults, k, t, dst)
    requires One(nf, v, ps[k]).firm ==> device == One(nf, v, ps[k]).device
    ensures SafeSoFar(nf, w, One(nf, v, ps[k]).w, ps, faults, k + 1, NextAttempt(faults, t), dst[k := device])
  {
    AfterOneMore(nf, w, ps, k);
    var dst' := dst[k := device];
    forall i | 0 <= i < k + 1 ensures DeviceOk(nf, w, ps, i, dst'[i]) {
      assert i < k ==> DeviceOk(nf, w, ps, i, dst[i]);
    }
  }

  lemma RangeStep<N, S, I, B>(nf: Function<N, S, I, B>, w: World<N, S, I>, v: World<N, S, I>, ps: seq<Packet<I, B>>,
                              faults: seq<Option<Fault<S>>>, k: nat, end: nat, t: nat, dst: seq<nat>, dst': seq<nat>)
    requires IndexOk(w.index, w.store) && k < |ps| == |dst| == |dst'| && ps[k].parsed && ps[k].id in v.index
    requires SafeSoFar(nf, w, v, ps, faults, k, t, dst) && end == EndOf(v.index, ps, k + 1)
    requires AllKnown(v.index, ps, k, end)
    requires forall i :: 0 <= i < |ps| ==>
               Sent(nf, Retried(nf, v, ps, k, end, faults, t), ps, k, end, i, dst[i], dst'[i])
    ensures SafeSoFar(nf, w, RangeDone(nf, v, ps, k, end, faults, t), ps, faults, end, NextAttempt(faults, t), dst')
  {
    RolledBackAtRange(nf, w, ps, faults, k, t);
    RetriedRestored(nf, v, ps, k, end, faults, t);
    RanIsAfter(nf, w, v, ps, k, end);
    forall i: nat | i < end ensures DeviceOk(nf, w, ps, i, dst'[i]) {
      assert Sent(nf, v, ps, k, end, i, dst[i], dst'[i]);
      if i < k {
        assert DeviceOk(nf, w, ps, i, dst[i]);
      } else {
        RanIsAfter(nf, w, v, ps, k, i);
      }
    }
    forall i | end <= i < |ps| ensures dst'[i] == nf.device {
      assert Sent(nf, v, ps, k, end, i, dst[i], dst'[i]);
    }
  }

  class DataPlane<!N, !S, !I(==, !new), !B> {
    const nf: Function<N, S, I, B>
    const store: array<S>
    var n: N
    var index: map<I, nat>

    ghost function View(): World<N, S, I>
      reads this, store
    {
      World(n, store[..], index)
    }

    constructor (nf: Function<N, S, I, B>, store: array<S>, n: N, index: map<I, nat>)
      ensures this.nf == nf && this.store == store && this.n == n && this.index == index
    {
      this.nf := nf;
      this.store := store;
      this.n := n;
      this.index := index;
    }

    /** `rollback_pkt_set_states`. */
    method Rollback(log: seq<Saved<S>>)
      requires forall i :: 0 <= i < |log| ==> log[i].ptr < store.Length
      modifies store
      ensures store[..] == Replay(old(store[..]), log)
    {
      for i := 0 to |log|
        invariant store[..] == Replay(old(store[..]), log[..i])
      {
        assert log[..i + 1][..i] == log[..i];
        store[log[i].ptr] := log[i].value;
      }
      assert log[..|log|] == log;
    }

    /** One attempt to run the handlers of the packets from `start` up to `end`. */
    method Attempt(ps: seq<Packet<I, B>>, start: nat, end: nat, fault: Option<Fault<S>>, dst: array<nat>)
      returns (ok: bool, log: seq<Saved<S>>)
      requires dst as object != store as object
      requires start <= end <= |ps| == dst.Length && IndexOk(index, store[..]) && AllKnown(index, ps, start, end)
      modifies this`n, store, dst
      ensures ok <==> fault.None?
      ensures forall i :: 0 <= i < |log| ==> log[i].ptr < store.Length
      ensures ok ==> Tx(n, store[..], log) == Ran(nf, old(View()), ps, start, end)
      ensures ok ==> forall i :: 0 <= i < |ps| ==> Sent(nf, old(View()), ps, start, end, i, old(dst[i]), dst[i])
      ensures !ok ==> store[..] == Garbled(nf, old(View()), ps, start, end, fault.value)
      ensures !ok ==> log == Ran(nf, old(View()), ps, start, LoggedEnd(ps, start, end, fault.value.at)).log
      ensures forall i :: 0 <= i < |ps| && !(start <= i < end && ps[i].parsed) ==> dst[i] == old(dst[i])
    {
      ghost var w := View();
      log := [];
      var k := start;
      while k < end
        invariant start <= k <= end && Tx(n, store[..], log) == Ran(nf, w, ps, start, k)
        invariant forall i :: 0 <= i < |log| ==> log[i].ptr < store.Length
        invariant fault.Some? && GivesUp(ps, start, end, fault.value.at) ==> k <= start + fault.value.at
        invariant forall i :: 0 <= i < |ps| ==> Sent(nf, w, ps, start, k, i, old(dst[i]), dst[i])
      {
        if ps[k].parsed {
          var gaveUp := fault.Some? && fault.value.at == k - start;
          log := Handle(ps, k, if gaveUp then fault else None, log, dst);
          if gaveUp {
            return false, log;
          }
        }
        k := k + 1;
      }
      ok := fault.None?;
    }

    /** Log the state of one packet and run its handler, which may give up half way. */
    method Handle(ps: seq<Packet<I, B>>, k: nat, fault: Option<Fault<S>>, log: seq<Saved<S>>, dst: array<nat>)
      returns (log': seq<Saved<S>>)
      requires dst as object != store as object
      requires k < |ps| == dst.Length && IndexOk(index, store[..]) && ps[k].parsed && ps[k].id in index
      modifies this`n, store, dst
      ensures var ptr := index[ps[k].id];
              && log' == log + [Saved(ptr, old(store[ptr]))]
              && store[..] == old(store[..])[ptr := store[ptr]]
              && if fault.Some? then store[ptr] == fault.value.garbage && dst[..] == old(dst[..])
                 else
                   && (n, store[ptr], dst[k]) == nf.handle(old(n), ps[k].body, old(store[ptr]))
                   && dst[..] == old(dst[..])[k := dst[k]]
    {
      ghost var now := store[..];
      var ptr := index[ps[k].id];
      log' := log + [Saved(ptr, store[ptr])];
      if fault.Some? {
        store[ptr] := fault.value.garbage;
      } else {
        var (n', s, device) := nf.handle(n, ps[k].body, store[ptr]);
        n := n';
        store[ptr] := s;
        dst[k] := device;
      }
      assert store[..] == now[ptr := store[ptr]];
    }

    /** An attempt, rolled back when it is aborted. */
    method Try(ps: seq<Packet<I, B>>, start: nat, end: nat, fault: Option<Fault<S>>, dst: array<nat>) returns (ok: bool)
      requires dst as object != store as object
      requires start <= end <= |ps| == dst.Length && IndexOk(index, store[..]) && AllKnown(index, ps, start, end)
      modifies this`n, store, dst
      ensures ok <==> fault.None?
      ensures ok ==> n == Ran(nf, old(View()), ps, start, end).n
      ensures ok ==> store[..] == Ran(nf, old(View()), ps, start, end).store
      ensures ok ==> forall i :: 0 <= i < |ps| ==> Sent(nf, old(View()), ps, start, end, i, old(dst[i]), dst[i])
      ensures !ok ==> View() == old(View()).(store := Undone(nf, old(View()), ps, start, end, fault.value))
      ensures forall i :: 0 <= i < |ps| && !(start <= i < end && ps[i].parsed) ==> dst[i] == old(dst[i])
    {
      var n0 := n;
      var log;
      ok, log := Attempt(ps, start, end, fault, dst);
      if !ok {
        Rollback(log);
        n := n0;
      }
    }

    /** A range of packets of registered packet sets: attempts are repeated until one succeeds.  It has its
        one-at-a-time effect if no two packets of what is rolled back share a state. */
    method RunRange(ps: seq<Packet<I, B>>, start: nat, end: nat, faults: seq<Option<Fault<S>>>, tried: nat,
                    dst: array<nat>)
      returns (attempts: nat)
      requires dst as object != store as object
      requires start <= end <= |ps| == dst.Length && IndexOk(index, store[..]) && AllKnown(index, ps, start, end)
      modifies this`n, store, dst
      ensures attempts == NextAttempt(faults, tried)
      ensures View() == RangeDone(nf, old(View()), ps, start, end, faults, tried)
      ensures forall i :: 0 <= i < |ps| ==>
                Sent(nf, Retried(nf, old(View()), ps, start, end, faults, tried), ps, start, end, i, old(dst[i]),
                     dst[i])
      ensures AllApart(index, ps, Aborted(ps, start, end, faults, tried)) ==>
                View() == After(nf, old(View()), ps[start..end])
    {
      ghost var w := View();
      attempts := tried;
      var ok := false;
      while !ok
        invariant attempts >= tried && index == w.index && |w.store| == store.Length
        invariant (if ok then attempts else NextAttempt(faults, attempts)) == NextAttempt(faults, tried)
        invariant !ok ==>
                    Retried(nf, w, ps, start, end, faults, tried)
                    == Retried(nf, View(), ps, start, end, faults, attempts)
        invariant !ok ==> forall i :: 0 <= i < |ps| && !(start <= i < end && ps[i].parsed) ==> dst[i] == old(dst[i])
        invariant ok ==> View() == RangeDone(nf, w, ps, start, end, faults, tried)
        invariant ok ==> forall i :: 0 <= i < |ps| ==>
                    Sent(nf, Retried(nf, w, ps, start, end, faults, tried), ps, start, end, i, old(dst[i]), dst[i])
        decreases !ok, |faults| - attempts
      {
        var fault := if attempts < |faults| then faults[attempts] else None;
        ghost var v, sent := View(), dst[..];
        ok := Try(ps, start, end, fault, dst);
        attempts := attempts + 1;
        if ok {
          assert v == Retried(nf, w, ps, start, end, faults, tried);
          forall i | 0 <= i < |ps| ensures Sent(nf, v, ps, start, end, i, old(dst[i]), dst[i]) {
            assert Sent(nf, v, ps, start, end, i, sent[i], dst[i]);
          }
        }
      }
      RangeIsSequential(nf, w, ps, start, end, faults, tried);
    }

    /** A packet of an unknown packet set: attempts are repeated until one succeeds, then the packet set
        may be registered.  The output device is reset only before the first attempt. */
    method RunUnknown(p: Packet<I, B>, faults: seq<Option<Fault<S>>>, tried: nat)
      returns (attempts: nat, device: nat)
      requires IndexOk(index, store[..]) && p.parsed && p.id !in index
      modifies this`n, this`index, store
      ensures attempts == NextAttempt(faults, tried)
      ensures View() == One(nf, old(View()), p).w && IndexOk(index, store[..])
      ensures One(nf, old(View()), p).firm ==> device == One(nf, old(View()), p).device
      ensures attempts == tried + 1 ==> device == One(nf, old(View()), p).device
      ensures MetIn(nf, old(View()), View(), p)
    {
      attempts, device := tried, nf.device;
      while attempts < |faults| && faults[attempts].Some?
        invariant attempts >= tried && (attempts == tried ==> device == nf.device)
        invariant NextAttempt(faults, attempts) == NextAttempt(faults, tried)
      {
        var left := faults[attempts].value.left;
        device := if left.Some? then left.value else device;
        attempts := attempts + 1;
      }
      attempts := attempts + 1;
      var (n', s, chosen) := nf.unknown(n, p.body);
      n := n';
      device := if chosen.Some? then chosen.value else device;
      if s.Some? {
        var ptr := nf.place(index);
        if ptr < store.Length {
          store[ptr] := s.value;
          index := index[p.id := ptr];
        }
      }
    }

    /** The end of the range of registered packets that starts at `start`. */
    method RangeEnd(ps: seq<Packet<I, B>>, start: nat) returns (end: nat)
      requires start < |ps| && ps[start].parsed && ps[start].id in index
      ensures end == EndOf(index, ps, start + 1)
    {
      end := start + 1;
      while end < |ps| && (!ps[end].parsed || ps[end].id in index)
        invariant start < end <= |ps| && EndOf(index, ps, end) == EndOf(index, ps, start + 1)
      {
        end := end + 1;
      }
    }

    /** By default every packet goes back to the device it came from. */
    method ResetDevices(dst: array<nat>)
      modifies dst
      ensures forall i :: 0 <= i < dst.Length ==> dst[i] == nf.device
    {
      for i := 0 to dst.Length
        invariant forall j :: 0 <= j < i ==> dst[j] == nf.device
      {
        dst[i] := nf.device;
      }
    }

    /** One round of its loop. */
    method Step(ps: seq<Packet<I, B>>, faults: seq<Option<Fault<S>>>, k: nat, tried: nat, dst: array<nat>,
                ghost w: World<N, S, I>)
      returns (k': nat, tried': nat)
      requires dst as object != store as object && IndexOk(w.index, w.store)
      requires k < |ps| == dst.Length && IndexOk(index, store[..])
      modifies this`n, this`index, store, dst
      ensures k < k' <= |ps| && IndexOk(index, store[..])
      ensures Batch(nf, View(), ps, faults, k', tried') == Batch(nf, old(View()), ps, faults, k, tried)
      ensures SafeSoFar(nf, w, old(View()), ps, faults, k, tried, old(dst[..])) ==>
                SafeSoFar(nf, w, View(), ps, faults, k', tried', dst[..])
    {
      ghost var v, sent := View(), dst[..];
      ghost var safe := SafeSoFar(nf, w, v, ps, faults, k, tried, sent);
      k', tried' := k + 1, tried;
      if !ps[k].parsed {
        if safe {
          UnparsedStep(nf, w, v, ps, faults, k, tried, sent);
        }
      } else if ps[k].id !in index {
        var device;
        tried', device := RunUnknown(ps[k], faults, tried);
        dst[k] := device;
        if safe {
          UnknownStep(nf, w, v, ps, faults, k, tried, sent, device);
        }
        assert dst[..] == sent[k := device];
      } else {
        k' := RangeEnd(ps, k);
        tried' := RunRange(ps, k, k', faults, tried, dst);
        if safe {
          RangeStep(nf, w, v, ps, faults, k, k', tried, sent, dst[..]);
        }
      }
    }

    /** The batched `process_pkt`.  `faults` says which attempts are aborted.  If no two packets of anything
        that is rolled back share a state, the world ends up as after processing the packets one at a time,
        and so do the output devices that the handlers choose.  `worlds` are those before, between and after
        the packets in that processing. */
    method ProcessPkt(ps: seq<Packet<I, B>>, faults: seq<Option<Fault<S>>>, dst: array<nat>)
      returns (ghost worlds: seq<World<N, S, I>>)
      requires dst as object != store as object
      requires |ps| == dst.Length && IndexOk(index, store[..])
      modifies this`n, this`index, store, dst
      ensures View() == Batch(nf, old(View()), ps, faults, 0, 0)
      ensures OneByOne(nf, ps, worlds) && worlds[0] == old(View())
      ensures Safe(nf, old(View()), ps, faults) ==> View() == worlds[|ps|]
      ensures Safe(nf, old(View()), ps, faults) ==>
                forall i :: 0 <= i < |ps| ==> SentTo(nf, worlds[i], ps[i], dst[i])
      ensures Safe(nf, old(View()), ps, faults) ==> View() == After(nf, old(View()), ps)
      ensures Safe(nf, old(View()), ps, faults) ==>
                forall i :: 0 <= i < |ps| ==> DeviceOk(nf, old(View()), ps, i, dst[i])
      ensures (forall j :: 0 <= j < |faults| ==> faults[j].None?) ==> Safe(nf, old(View()), ps, faults)
      ensures FreshPlaces(nf) && Injective(old(index)) && DistinctIds(ps) ==> Safe(nf, old(View()), ps, faults)
    {
      ghost var w := View();
      ResetDevices(dst);
      assert ps[..0] == [];
      var k, tried := 0, 0;
      while k < |ps|
        invariant 0 <= k <= |ps| && IndexOk(index, store[..]) && tried >= 0
        invariant Batch(nf, View(), ps, faults, k, tried) == Batch(nf, w, ps, faults, 0, 0)
        invariant Safe(nf, w, ps, faults) ==> SafeSoFar(nf, w, View(), ps, faults, k, tried, dst[..])
      {
        k, tried := Step(ps, faults, k, tried, dst, w);
      }
      assert ps[..|ps|] == ps;
      SimplySafe(nf, w, ps, faults);
      worlds := Worlds(nf, w, ps);
      AfterIsOneByOne(nf, w, ps);
      if Safe(nf, w, ps, faults) {
        forall i | 0 <= i < |ps| ensures SentTo(nf, worlds[i], ps[i], dst[i]) {
          assert DeviceOk(nf, w, ps, i, dst[i]);
          OneHasEffect(nf, After(nf, w, ps[..i]), ps[i]);
        }
      }
    }
  }
}
