/** The open-addressed hash map of src/map.c.

    A key is stored in the first free entry of a circular probe that starts at its hash.  Every
    entry counts, in `chns`, the stored keys whose probe passes over it, so that a lookup may stop at
    an entry with count zero.

    An operation locks the entries it writes one at a time, through private copies that a
    multi-version RLU transaction installs at its end.  `contended` is the set of entries that other
    threads hold: a refused lock aborts the operation and discards the copies. */
module HashMap {
  import opened Arithmetic
  import opened PowersOfTwo

  datatype Entry<K> = Entry(busy: bool, khs: nat, chns: int, val: int, key: K)

  datatype Outcome = Done | Refused | Abort

  // ---- The circular probe

  function Start<K>(hash: K -> nat, k: K, c: nat): (s: nat)
    requires c > 0
    ensures s < c
  {
    hash(k) % c
  }

  /** The `i`-th index of the probe that starts at `s`. */
  function Probe(s: nat, i: nat, c: nat): (x: nat)
    requires s < c && i < c
    ensures x < c
  {
    if s + i < c then s + i else s + i - c
  }

  /** The number of steps from `s` to `x`. */
  function Distance(s: nat, x: nat, c: nat): (d: nat)
    requires s < c && x < c
    ensures d < c && Probe(s, d, c) == x
  {
    if s <= x then x - s else x + c - s
  }

  /** The masked index of the source is the probe. */
  lemma ProbeIsMasked(s: nat, i: nat, c: nat)
    requires IsPowerOfTwo(c) && s < c && i < c
    ensures And(s + i, c - 1) == Probe(s, i, c)
  {
    MaskIsModulo(s + i, c);
    if s + i < c {
      RemainderUnique(s + i, c, 0, s + i);
    } else {
      RemainderUnique(s + i, c, 1, s + i - c);
    }
  }

  // ---- What the entries mean

  /** The probe of the key stored at `j` passes over `i`. */
  predicate PassesOver<K>(e: seq<Entry<K>>, hash: K -> nat, i: nat, j: nat)
    requires i < |e| && j < |e|
  {
    e[j].busy &&
    var s := Start(hash, e[j].key, |e|);
    Distance(s, i, |e|) < Distance(s, j, |e|)
  }

  ghost function Passers<K>(e: seq<Entry<K>>, hash: K -> nat, i: nat): set<nat>
    requires i < |e|
  {
    set j: nat | j < |e| && PassesOver(e, hash, i, j)
  }

  ghost predicate ChainCounted<K>(e: seq<Entry<K>>, hash: K -> nat, i: nat)
    requires i < |e|
  {
    e[i].chns == |Passers(e, hash, i)|
  }

  ghost predicate ChainsCounted<K>(e: seq<Entry<K>>, hash: K -> nat) {
    forall i: nat {:trigger ChainCounted(e, hash, i)} :: i < |e| ==> ChainCounted(e, hash, i)
  }

  ghost predicate HashesCached<K>(e: seq<Entry<K>>, hash: K -> nat) {
    forall i :: 0 <= i < |e| && e[i].busy ==> e[i].khs == hash(e[i].key)
  }

  ghost predicate KeysUnique<K>(e: seq<Entry<K>>) {
    forall i, j :: 0 <= i < j < |e| && e[i].busy && e[j].busy ==> e[i].key != e[j].key
  }

  ghost predicate Inv<K>(e: seq<Entry<K>>, hash: K -> nat) {
    ChainsCounted(e, hash) && HashesCached(e, hash) && KeysUnique(e)
  }

  /** The finite map that the entries represent. */
  ghost function Contents<K>(e: seq<Entry<K>>): map<K, int>
    requires KeysUnique(e)
  {
    map j | 0 <= j < |e| && e[j].busy :: e[j].key := e[j].val
  }

  lemma StoredAt<K>(e: seq<Entry<K>>, k: K) returns (j: nat)
    requires KeysUnique(e) && k in Contents(e)
    ensures j < |e| && e[j].busy && e[j].key == k && Contents(e)[k] == e[j].val
  {
    j :| 0 <= j < |e| && e[j].busy && e[j].key == k;
  }

  /** A lookup may stop at an entry with count zero: a key stored further along its probe would have
      been counted there. */
  lemma ZeroChainEndsProbe<K>(e: seq<Entry<K>>, hash: K -> nat, k: K, d: nat)
    requires Inv(e, hash) && d < |e|
    requires forall t: nat :: t <= d ==>
               !(e[Probe(Start(hash, k, |e|), t, |e|)].busy &&
                 e[Probe(Start(hash, k, |e|), t, |e|)].key == k)
    requires e[Probe(Start(hash, k, |e|), d, |e|)].chns == 0
    ensures k !in Contents(e)
  {
    if k in Contents(e) {
      var j := StoredAt(e, k);
      var s := Start(hash, k, |e|);
      var i := Probe(s, d, |e|);
      assert Distance(s, j, |e|) > d;
      PasserIsCounted(e, hash, i, j);
    }
  }

  lemma PasserIsCounted<K>(e: seq<Entry<K>>, hash: K -> nat, i: nat, j: nat)
    requires Inv(e, hash) && i < |e| && j < |e| && PassesOver(e, hash, i, j)
    ensures e[i].chns > 0
  {
    assert ChainCounted(e, hash, i);
    assert j in Passers(e, hash, i);
  }

  // ---- One insertion and one removal, as functions on entries

  /** The entries that the first `d` steps of the probe from `s` visit. */
  predicate OnPath(s: nat, d: nat, i: nat, c: nat)
    requires s < c && i < c
  {
    Distance(s, i, c) < d
  }

  /** `x` with the chain counts along the path changed by `delta` and entry `t` replaced. */
  ghost predicate Rechained<K>(e: seq<Entry<K>>, e': seq<Entry<K>>, s: nat, d: nat, t: nat,
                               delta: int, target: Entry<K>)
    requires s < |e| && t < |e|
  {
    && |e'| == |e|
    && e'[t] == target
    && forall i: nat :: i < |e| && i != t ==>
         e'[i] == if OnPath(s, d, i, |e|) then e[i].(chns := e[i].chns + delta) else e[i]
  }

  lemma InsertKeepsInv<K>(e: seq<Entry<K>>, e': seq<Entry<K>>, hash: K -> nat, k: K, v: int, t: nat)
    requires Inv(e, hash) && k !in Contents(e) && t < |e| && !e[t].busy
    requires var s := Start(hash, k, |e|);
             Rechained(e, e', s, Distance(s, t, |e|), t, 1, Entry(true, hash(k), e[t].chns, v, k))
    ensures Inv(e', hash) && Contents(e') == Contents(e)[k := v]
  {
    var s := Start(hash, k, |e|);
    forall i, j | 0 <= i < j < |e'| && e'[i].busy && e'[j].busy ensures e'[i].key != e'[j].key {
      assert i != t ==> e[i].key in Contents(e);
      assert j != t ==> e[j].key in Contents(e);
    }
    forall i: nat | i < |e'| ensures ChainCounted(e', hash, i) {
      assert ChainCounted(e, hash, i);
      InsertPassers(e, e', hash, k, v, t, i);
    }
    InsertContents(e, e', hash, k, v, t);
  }

  lemma InsertPassers<K>(e: seq<Entry<K>>, e': seq<Entry<K>>, hash: K -> nat, k: K, v: int, t: nat, i: nat)
    requires t < |e| && !e[t].busy && i < |e|
    requires var s := Start(hash, k, |e|);
             Rechained(e, e', s, Distance(s, t, |e|), t, 1, Entry(true, hash(k), e[t].chns, v, k))
    ensures var s := Start(hash, k, |e|);
            |Passers(e', hash, i)| ==
            |Passers(e, hash, i)| + if OnPath(s, Distance(s, t, |e|), i, |e|) then 1 else 0
  {
    var s := Start(hash, k, |e|);
    forall j: nat | j < |e| && j != t
      ensures PassesOver(e', hash, i, j) == PassesOver(e, hash, i, j)
    {
      assert e'[j].busy == e[j].busy && e'[j].key == e[j].key;
    }
    assert !PassesOver(e, hash, i, t);
    if OnPath(s, Distance(s, t, |e|), i, |e|) {
      assert Passers(e', hash, i) == Passers(e, hash, i) + {t};
    } else {
      assert Passers(e', hash, i) == Passers(e, hash, i);
    }
  }

  lemma InsertContents<K>(e: seq<Entry<K>>, e': seq<Entry<K>>, hash: K -> nat, k: K, v: int, t: nat)
    requires KeysUnique(e) && KeysUnique(e') && t < |e| && !e[t].busy && k !in Contents(e)
    requires var s := Start(hash, k, |e|);
             Rechained(e, e', s, Distance(s, t, |e|), t, 1, Entry(true, hash(k), e[t].chns, v, k))
    ensures Contents(e') == Contents(e)[k := v]
  {
    var m, m' := Contents(e)[k := v], Contents(e');
    forall x | x in m' ensures x in m && m[x] == m'[x] {
      var j := StoredAt(e', x);
      if j != t {
        assert e[j].busy && e[j].key == x;
      }
    }
    forall x | x in m ensures x in m' {
      if x == k {
        assert e'[t].busy && e'[t].key == k;
      } else {
        var j := StoredAt(e, x);
        assert e'[j].busy && e'[j].key == x;
      }
    }
  }

  /** A removal is an insertion read backwards. */
  lemma RemoveKeepsInv<K>(e: seq<Entry<K>>, e': seq<Entry<K>>, hash: K -> nat, k: K, t: nat)
    requires Inv(e, hash) && t < |e| && e[t].busy && e[t].key == k
    requires var s := Start(hash, k, |e|);
             Rechained(e, e', s, Distance(s, t, |e|), t, -1, e[t].(busy := false))
    ensures Inv(e', hash) && Contents(e') == Contents(e) - {k}
  {
    var s := Start(hash, k, |e|);
    assert Rechained(e', e, s, Distance(s, t, |e|), t, 1, e[t]);
    forall i: nat | i < |e'| ensures ChainCounted(e', hash, i) {
      assert ChainCounted(e, hash, i);
      InsertPassers(e', e, hash, k, e[t].val, t, i);
    }
    assert k !in Contents(e') by {
      if k in Contents(e') {
        var j := StoredAt(e', k);
        BusyElsewhere(e, e', s, Distance(s, t, |e|), t, j);
      }
    }
    InsertContents(e', e, hash, k, e[t].val, t);
    AddThenRemove(Contents(e'), k, e[t].val);
  }

  lemma AddThenRemove<K>(m: map<K, int>, k: K, v: int)
    requires k !in m
    ensures m[k := v] - {k} == m
  {
  }

  lemma BusyElsewhere<K>(e: seq<Entry<K>>, e': seq<Entry<K>>, s: nat, d: nat, t: nat, j: nat)
    requires s < |e| && t < |e| && j < |e| && Rechained(e, e', s, d, t, -1, e[t].(busy := false))
    requires e'[j].busy
    ensures j != t && e[j].busy && e[j].key == e'[j].key
  {
  }

  function BusyCount<K>(e: seq<Entry<K>>): nat {
    if e == [] then 0
    else BusyCount(e[..|e| - 1]) + if e[|e| - 1].busy then 1 else 0
  }

  /** The map has at most as many keys as there are entries, and as many exactly when all are busy. */
  lemma SizeBound<K>(e: seq<Entry<K>>)
    requires KeysUnique(e)
    ensures |Contents(e)| <= |e|
    ensures |Contents(e)| == |e| <==> forall i :: 0 <= i < |e| ==> e[i].busy
  {
    SizeIsBusyCount(e);
    BusyCountBound(e);
  }

  lemma {:induction false} BusyCountBound<K>(e: seq<Entry<K>>)
    ensures BusyCount(e) <= |e|
    ensures BusyCount(e) == |e| <==> forall i :: 0 <= i < |e| ==> e[i].busy
  {
    if e != [] {
      BusyCountBound(e[..|e| - 1]);
      assert forall i :: 0 <= i < |e| - 1 ==> e[..|e| - 1][i] == e[i];
    }
  }

  lemma {:induction false} SizeIsBusyCount<K>(e: seq<Entry<K>>)
    requires KeysUnique(e)
    ensures |Contents(e)| == BusyCount(e)
  {
    if e != [] {
      var last := |e| - 1;
      SizeIsBusyCount(e[..last]);
      ContentsByLast(e);
      if e[last].busy {
        OneMoreKey(Contents(e[..last]), Contents(e), e[last].key);
      } else {
        KeyCount(Contents(e));
        KeyCount(Contents(e[..last]));
      }
    }
  }

  lemma OneMoreKey<K>(m: map<K, int>, m': map<K, int>, k: K)
    requires k !in m && m'.Keys == m.Keys + {k}
    ensures |m'| == |m| + 1
  {
    KeyCount(m);
    KeyCount(m');
  }

  lemma KeyCount<K>(m: map<K, int>)
    ensures |m| == |m.Keys|
  {
  }

  lemma ContentsByLast<K>(e: seq<Entry<K>>)
    requires KeysUnique(e) && e != []
    ensures var last := |e| - 1;
            && Contents(e).Keys == Contents(e[..last]).Keys + (if e[last].busy then {e[last].key} else {})
            && (e[last].busy ==> e[last].key !in Contents(e[..last]))
  {
    var last := |e| - 1;
    forall x | x in Contents(e) && !(e[last].busy && e[last].key == x) ensures x in Contents(e[..last]) {
      var j := StoredAt(e, x);
      assert e[..last][j] == e[j];
    }
    forall x | x in Contents(e[..last]) ensures x in Contents(e) && !(e[last].busy && e[last].key == x) {
      var j := StoredAt(e[..last], x);
      assert e[..last][j] == e[j];
    }
  }

  predicate Ascending(s: seq<int>) {
    forall i, j :: 0 <= i < j < |s| ==> s[i] < s[j]
  }

  lemma AscendingAppend(s: seq<int>, x: int)
    requires Ascending(s) && forall y :: y in s ==> y < x
    ensures Ascending(s + [x])
    ensures forall y :: y in s + [x] <==> y in s || y == x
  {
    assert forall i :: 0 <= i < |s| ==> s[i] in s;
  }

  // ---- The map

  class NfosMap<K(==)> {
    const hash: K -> nat
    const entries: array<Entry<K>>

    ghost predicate Valid()
      reads this, entries
    {
      entries.Length > 0 && Inv(entries[..], hash)
    }

    ghost function Map(): map<K, int>
      requires Valid()
      reads this, entries
    {
      Contents(entries[..])
    }

    /** `nfos_map_allocate_t`.  `blank` is the unspecified initial key of an entry. */
    constructor (hash: K -> nat, capacity: nat, blank: K)
      requires 0 < capacity <= 0x8000_0000
      ensures Valid() && Map() == map[] && fresh(entries) && this.hash == hash
      ensures entries.Length == NextPow2(capacity) && capacity <= entries.Length
      ensures IsPowerOfTwo(entries.Length)
    {
      NextPow2IsSmallest(capacity);
      this.hash := hash;
      var c := NextPow2(capacity);
      entries := new Entry<K>[c](_ => Entry(false, 0, 0, 0, blank));
      new;
      forall i: nat | i < entries.Length ensures ChainCounted(entries[..], hash, i) {
        assert Passers(entries[..], hash, i) == {};
      }
    }

    /** `nfos_map_get_t`. */
    method Get(k: K) returns (found: bool, val: int)
      requires Valid()
      ensures found <==> k in Map()
      ensures found ==> val == Map()[k]
    {
      ghost var e := entries[..];
      var start := Start(hash, k, entries.Length);
      for i := 0 to entries.Length
        invariant forall t: nat :: t < i ==>
                    !(e[Probe(start, t, |e|)].busy && e[Probe(start, t, |e|)].key == k)
      {
        var index := Probe(start, i, entries.Length);
        var entry := entries[index];
        if entry.busy && entry.khs == hash(k) {
          if entry.key == k {
            return true, entry.val;
          }
        } else if entry.chns == 0 {
          ZeroChainEndsProbe(e, hash, k, i);
          return false, 0;
        }
      }
      WholeProbe(e, hash, k);
      return false, 0;
    }

    /** The end of a transaction: all entries become those of `e`. */
    method Install(e: seq<Entry<K>>)
      requires |e| == entries.Length > 0 && Inv(e, hash)
      modifies entries
      ensures Valid() && entries[..] == e
    {
      forall x | 0 <= x < entries.Length {
        entries[x] := e[x];
      }
      assert entries[..] == e;
    }

    /** `nfos_map_put_t`, for a key that the map does not hold.  `locked` lists the entries in the
        order in which they are locked. */
    method Put(k: K, v: int, contended: set<int>) returns (r: Outcome, locked: seq<int>)
      requires Valid() && k !in Map()
      modifies entries
      ensures Valid()
      ensures r.Done? ==> Map() == old(Map())[k := v]
      ensures !r.Done? ==> entries[..] == old(entries[..])
      ensures r.Refused? <==> |old(Map())| == entries.Length
      ensures r.Abort? ==> contended != {}
      ensures Ascending(locked)
      ensures r.Done? ==> forall i :: i in locked <==>
                0 <= i < entries.Length && entries[i] != old(entries[i])
      ensures r.Done? ==> forall i :: i in locked ==> i !in contended
    {
      ghost var e := entries[..];
      var start := Start(hash, k, entries.Length);
      for i := 0 to entries.Length
        invariant forall t: nat :: t < i ==> e[Probe(start, t, |e|)].busy
      {
        var index := Probe(start, i, entries.Length);
        var entry := entries[index];
        if !entry.busy {
          SizeBound(e);
          var ok, pending;
          ok, pending, locked :=
            Rechain(entries[..], start, i, 1, Entry(true, hash(k), entry.chns, v, k), contended);
          if !ok {
            return Abort, locked;
          }
          InsertKeepsInv(e, pending, hash, k, v, index);
          Install(pending);
          return Done, locked;
        }
      }
      AllBusy(e, start);
      SizeBound(e);
      return Refused, [];
    }

    /** `nfos_map_erase_t`. */
    method Erase(k: K, contended: set<int>) returns (r: Outcome, locked: seq<int>)
      requires Valid()
      modifies entries
      ensures Valid()
      ensures r.Done? ==> Map() == old(Map()) - {k}
      ensures !r.Done? ==> entries[..] == old(entries[..])
      ensures r.Refused? <==> k !in old(Map())
      ensures r.Abort? ==> contended != {}
      ensures Ascending(locked)
      ensures r.Done? ==> forall i :: i in locked <==>
                0 <= i < entries.Length && entries[i] != old(entries[i])
      ensures r.Done? ==> forall i :: i in locked ==> i !in contended
    {
      ghost var e := entries[..];
      var start := Start(hash, k, entries.Length);
      for i := 0 to entries.Length
        invariant forall t: nat :: t < i ==>
                    !(e[Probe(start, t, |e|)].busy && e[Probe(start, t, |e|)].key == k)
      {
        var index := Probe(start, i, entries.Length);
        var entry := entries[index];
        if entry.busy && entry.khs == hash(k) {
          if entry.key == k {
            assert k in Contents(e);
            var ok, pending;
            ok, pending, locked := Rechain(entries[..], start, i, -1, entry.(busy := false), contended);
            if !ok {
              return Abort, locked;
            }
            RemoveKeepsInv(e, pending, hash, k, index);
            Install(pending);
            return Done, locked;
          }
        } else if entry.chns == 0 {
          ZeroChainEndsProbe(e, hash, k, i);
          return Refused, [];
        }
      }
      WholeProbe(e, hash, k);
      return Refused, [];
    }
  }

  /** The writes of an insertion or a removal, in the canonical order: when the path wraps around the
      end of the array, its low part comes first. */
  method Rechain<K>(e: seq<Entry<K>>, start: nat, i: nat, delta: int, target: Entry<K>,
                    contended: set<int>)
    returns (ok: bool, pending: seq<Entry<K>>, locked: seq<int>)
    requires start < |e| && i < |e| && delta != 0
    requires target.chns == e[Probe(start, i, |e|)].chns && target != e[Probe(start, i, |e|)]
    ensures !ok ==> contended != {}
    ensures Ascending(locked)
    ensures ok ==> Rechained(e, pending, start, i, Probe(start, i, |e|), delta, target)
    ensures ok ==> forall x :: x in locked <==> 0 <= x < |e| && pending[x] != e[x]
    ensures ok ==> forall x :: x in locked ==> x !in contended
  {
    pending, locked := e, [];
    var index := Probe(start, i, |e|);
    if start + i >= |e| {
      ok, pending, locked := LockRange(e, pending, 0, index, delta, contended, locked);
      if !ok || index in contended {
        return false, pending, locked;
      }
      AscendingAppend(locked, index);
      pending, locked := pending[index := target], locked + [index];
      ok, pending, locked := LockRange(e, pending, start, |e|, delta, contended, locked);
    } else {
      ok, pending, locked := LockRange(e, pending, start, index, delta, contended, locked);
      if !ok || index in contended {
        return false, pending, locked;
      }
      AscendingAppend(locked, index);
      pending, locked := pending[index := target], locked + [index];
    }
  }

  /** Lock the entries from `lo` up to `hi` and change their chain counts. */
  method LockRange<K>(e: seq<Entry<K>>, before: seq<Entry<K>>, lo: nat, hi: nat, delta: int,
                      contended: set<int>, held: seq<int>)
    returns (ok: bool, pending: seq<Entry<K>>, locked: seq<int>)
    requires |before| == |e| && lo <= hi <= |e| && delta != 0
    requires forall x :: lo <= x < hi ==> before[x] == e[x]
    requires Ascending(held) && forall x :: x in held ==> 0 <= x < lo
    ensures !ok ==> contended != {}
    ensures Ascending(locked) && |pending| == |e|
    ensures ok ==> forall x: int :: x in locked <==> x in held || lo <= x < hi
    ensures ok ==> forall x :: lo <= x < hi ==> x !in contended
    ensures ok ==> forall x :: 0 <= x < |e| ==>
              pending[x] == if lo <= x < hi then e[x].(chns := e[x].chns + delta) else before[x]
  {
    pending, locked := before, held;
    for k := lo to hi
      invariant |pending| == |e| && Ascending(locked)
      invariant forall x: int :: x in locked <==> x in held || lo <= x < k
      invariant forall x :: lo <= x < k ==> x !in contended
      invariant forall x :: 0 <= x < |e| ==>
                  pending[x] == if lo <= x < k then e[x].(chns := e[x].chns + delta) else before[x]
    {
      if k in contended {
        return false, pending, locked;
      }
      AscendingAppend(locked, k);
      pending, locked := pending[k := pending[k].(chns := pending[k].chns + delta)], locked + [k];
    }
    ok := true;
  }

  lemma AllBusy<K>(e: seq<Entry<K>>, s: nat)
    requires s < |e| && forall t: nat :: t < |e| ==> e[Probe(s, t, |e|)].busy
    ensures forall i :: 0 <= i < |e| ==> e[i].busy
  {
    forall i | 0 <= i < |e| ensures e[i].busy {
      var d := Distance(s, i, |e|);
    }
  }

  lemma WholeProbe<K>(e: seq<Entry<K>>, hash: K -> nat, k: K)
    requires Inv(e, hash) && |e| > 0
    requires forall t: nat :: t < |e| ==>
               !(e[Probe(Start(hash, k, |e|), t, |e|)].busy &&
                 e[Probe(Start(hash, k, |e|), t, |e|)].key == k)
    ensures k !in Contents(e)
  {
    if k in Contents(e) {
      var j := StoredAt(e, k);
      var d := Distance(Start(hash, k, |e|), j, |e|);
    }
  }
}
