/** The index allocator with expiration of src/double-chain-exp.c; without the times its allocation is
    also that of src/double-chain-impl.c.

    An operation of one core is a multi-version RLU transaction: it reads cells, locks each cell before
    writing to a private copy of it, and either installs all copies or, when another core holds a cell
    (`busy`), aborts without effect.  `locks` lists the cells in the order of locking. */
module DchainExp {
  import opened CellLists

  datatype Outcome = Ok(index: int) | Nothing | Abort

  // ---- Where an allocation takes its cell from

  ghost predicate HasLists(n: nat, l: Layout) {
    forall a {:trigger a in l.lists} {:trigger IsList(n, a)} :: a in l.lists <==> IsList(n, a)
  }

  /** The lists after one free cell of every core below `i` has moved to the global list. */
  ghost function Refilled(l: Layout, n: nat, i: nat): Layout
    requires HasLists(n, l) && i <= n
    ensures HasLists(n, Refilled(l, n, i))
  {
    if i == 0 then l else Migrated(Refilled(l, n, i - 1), i - 1)
  }

  ghost function Migrated(l: Layout, i: nat): Layout
    requires Free(i) in l.lists && Global in l.lists
  {
    if l.lists[Free(i)] == [] then l else MoveFirst(l, Free(i), Global)
  }

  ghost function MoveFirst(l: Layout, a: List, b: List): Layout
    requires a in l.lists && b in l.lists && l.lists[a] != []
  {
    var t := Taken(l, a, 0);
    Given(t, b, [l.lists[a][0]] + t.lists[b], l.lists[a][0])
  }

  lemma MoveFirstKeeps(l: Layout, a: List, b: List, x: List)
    requires a in l.lists && b in l.lists && l.lists[a] != [] && x in l.lists && x != a && x != b
    ensures MoveFirst(l, a, b).lists[x] == l.lists[x]
  {
  }

  /** The list from whose front core `core` allocates, and all lists at that moment: its own free list,
      else the global one, else the global one after refilling it. */
  ghost function Source(l: Layout, n: nat, core: nat): (r: (Layout, List))
    requires core < n && HasLists(n, l)
    ensures HasLists(n, r.0) && r.1 in r.0.lists && !r.1.Ring?
  {
    if l.lists[Free(core)] != [] then (l, Free(core))
    else if l.lists[Global] != [] then (l, Global)
    else (Refilled(l, n, n), Global)
  }

  /** The lists after the allocation of a cell to core `core`. */
  ghost function Allocated(l: Layout, n: nat, core: nat): Layout
    requires core < n && HasLists(n, l)
    requires var s := Source(l, n, core); s.0.lists[s.1] != []
  {
    var (p, a) := Source(l, n, core);
    var t := Taken(p, a, 0);
    Given(t, Ring(core), t.lists[Ring(core)] + [p.lists[a][0]], p.lists[a][0])
  }

  /** What the refill leaves alone. */
  lemma {:induction false} RefilledKeeps(l: Layout, n: nat, i: nat, a: List)
    requires i <= n && HasLists(n, l) && IsList(n, a) && (a.Ring? || (a.Free? && a.core >= i))
    ensures Refilled(l, n, i).lists[a] == l.lists[a]
  {
    if i > 0 {
      RefilledKeeps(l, n, i - 1, a);
      var p := Refilled(l, n, i - 1);
      if p.lists[Free(i - 1)] != [] {
        MoveFirstKeeps(p, Free(i - 1), Global, a);
      }
    }
  }

  /** The global list stays empty only when there was nothing to move. */
  lemma {:induction false} RefilledNothing(l: Layout, n: nat, i: nat)
    requires i <= n && HasLists(n, l) && Refilled(l, n, i).lists[Global] == []
    ensures Refilled(l, n, i) == l
    ensures forall j: nat {:trigger Free(j)} :: j < i ==> l.lists[Free(j)] == []
  {
    if i > 0 {
      RefilledNothing(l, n, i - 1);
    }
  }

  /** An allocation is refused only when no cell is on a free list. */
  lemma EmptySourceMeansFull(c: seq<Cell>, n: nat, count: nat, l: Layout, core: nat, x: int)
    requires ListsOk(c, n, count, l) && core < n && IsIndexCell(n, count, x)
    requires Source(l, n, core).0.lists[Source(l, n, core).1] == []
    ensures x in l.home && l.home[x].Ring?
  {
    AllocatedByListInd(c, n, count, l, x);
    RefilledNothing(l, n, n);
  }

  /** The cells on free lists after a refill were free before it. */
  lemma {:induction false} RefilledHome(c: seq<Cell>, n: nat, count: nat, l: Layout, i: nat)
    requires ListsOk(c, n, count, l) && i <= n
    ensures forall a, x {:trigger x in Refilled(l, n, i).lists[a]} ::
              IsList(n, a) && !a.Ring? && x in Refilled(l, n, i).lists[a] ==>
              IsIndexCell(n, count, x) && x in l.home && !l.home[x].Ring?
  {
    if i == 0 {
      forall a, x | IsList(n, a) && !a.Ring? && x in l.lists[a]
        ensures IsIndexCell(n, count, x) && x in l.home && !l.home[x].Ring?
      {
        assert ListOk(c, n, count, l, a);
      }
    } else {
      RefilledHome(c, n, count, l, i - 1);
      var p := Refilled(l, n, i - 1);
      if p.lists[Free(i - 1)] != [] {
        var y := p.lists[Free(i - 1)][0];
        assert y in p.lists[Free(i - 1)];
        forall a, x | IsList(n, a) && !a.Ring? && x in Refilled(l, n, i).lists[a]
          ensures x == y || x in p.lists[a]
        {
        }
      }
    }
  }

  /** The cell `x` is the new last one of the core's ring; the other rings stay. */
  ghost predicate Appended(l: Layout, m: Layout, n: nat, core: nat, x: int)
    requires HasLists(n, l) && HasLists(n, m)
  {
    forall i: nat {:trigger Ring(i)} :: i < n ==>
      m.lists[Ring(i)] == if i == core then l.lists[Ring(i)] + [x] else l.lists[Ring(i)]
  }

  /** A successful allocation takes a free cell and appends it to the core's ring; other rings stay. */
  lemma AllocationTakesFree(c: seq<Cell>, n: nat, count: nat, l: Layout, core: nat)
    requires ListsOk(c, n, count, l) && core < n
    requires Source(l, n, core).0.lists[Source(l, n, core).1] != []
    ensures var x := Source(l, n, core).0.lists[Source(l, n, core).1][0];
            && IsIndexCell(n, count, x) && x in l.home && !l.home[x].Ring?
            && Appended(l, Allocated(l, n, core), n, core, x)
  {
    RefilledHome(c, n, count, l, n);
    RefilledHome(c, n, count, l, 0);
    var (p, a) := Source(l, n, core);
    forall i: nat | i < n ensures p.lists[Ring(i)] == l.lists[Ring(i)] {
      RefilledKeeps(l, n, n, Ring(i));
    }
    assert p.lists[a][0] in p.lists[a];
    assert p == Refilled(l, n, n) || p == Refilled(l, n, 0);
  }

  // ---- Cells against lists

  lemma MoveFirstOk(c: seq<Cell>, n: nat, count: nat, l: Layout, a: List, b: List, time: int)
    requires ListsOk(c, n, count, l) && a in l.lists && b in l.lists && a != b
    requires !a.Ring? && !b.Ring? && l.lists[a] != []
    ensures Head(n, a) < |c| && Head(n, b) < |c|
    ensures var x := l.lists[a][0];
            && 0 <= x < |c| && x != Head(n, b) && c[Head(n, a)].next == x
            && ListsOk(PushFree(PopFree(c, Head(n, a)), Head(n, b), x, time), n, count, MoveFirst(l, a, b))
  {
    TakeFirstFree(c, n, count, l, a);
    assert ListOk(c, n, count, l, a);
    GiveFree(PopFree(c, Head(n, a)), n, count, Taken(l, a, 0), l.lists[a][0], b, time);
  }

  lemma InstallOk(c: seq<Cell>, n: nat, count: nat, l: Layout, a: List, b: List, time: int)
    requires ListsOk(c, n, count, l) && a in l.lists && b in l.lists
    requires !a.Ring? && b.Ring? && l.lists[a] != []
    ensures Head(n, a) < |c| && Head(n, b) < |c|
    ensures var x := l.lists[a][0];
            && 0 <= x < |c| && x != Head(n, b) && c[Head(n, a)].next == x
            && 0 <= PopFree(c, Head(n, a))[Head(n, b)].prev < |c|
            && (c[Head(n, b)].prev == Head(n, b) || c[Head(n, b)].prev in l.lists[b])
            && var t := Taken(l, a, 0);
               ListsOk(Append(PopFree(c, Head(n, a)), Head(n, b), x, time), n, count,
                       Given(t, b, t.lists[b] + [x], x))
  {
    TakeFirstFree(c, n, count, l, a);
    assert ListOk(c, n, count, l, a);
    GiveRing(PopFree(c, Head(n, a)), n, count, Taken(l, a, 0), l.lists[a][0], b, time);
  }

  /** The time of cell `x` is now `time`, the times of all other cells are as before. */
  ghost predicate OnlyTime(c: seq<Cell>, d: seq<Cell>, x: int, time: int) {
    && |d| == |c| && 0 <= x < |c| && d[x].time == time
    && forall y :: 0 <= y < |c| && y != x ==> d[y].time == c[y].time
  }

  lemma AppendTimes(c: seq<Cell>, h: nat, x: nat, time: int)
    requires h < |c| && x < |c| && 0 <= c[h].prev < |c| && x != h
    ensures OnlyTime(c, Append(c, h, x, time), x, time)
  {
  }

  lemma UnlinkTimes(c: seq<Cell>, x: nat)
    requires x < |c| && 0 <= c[x].prev < |c| && 0 <= c[x].next < |c|
    ensures |Unlink(c, x)| == |c|
    ensures forall y :: 0 <= y < |c| ==> Unlink(c, x)[y].time == c[y].time
  {
  }

  /** Changing nothing but times keeps the lists. */
  lemma TimesOnly(c: seq<Cell>, d: seq<Cell>, n: nat, count: nat, l: Layout)
    requires ListsOk(c, n, count, l) && |d| == |c|
    requires forall y :: 0 <= y < |c| ==> d[y] == c[y].(time := d[y].time)
    ensures ListsOk(d, n, count, l)
  {
    RestStaysFree(c, d, Shift(n) + count);
    forall a | a in l.lists ensures ListOk(d, n, count, l, a) {
      assert ListOk(c, n, count, l, a);
      forall k: nat | k <= |l.lists[a]| ensures Link(d, Head(n, a), l.lists[a], a.Ring?, k) {
        assert Link(c, Head(n, a), l.lists[a], a.Ring?, k);
      }
    }
    forall x | IsIndexCell(n, count, x) ensures HomeOk(l, x) {
      assert HomeOk(l, x);
    }
  }

  // ---- The refill as a transaction

  /** The copies `w` of an allocation that has refilled the global list from the cores below `i`. */
  ghost predicate Migrating(c: seq<Cell>, l: Layout, n: nat, count: nat, w: seq<Cell>, locks: seq<int>, i: nat) {
    && HasLists(n, l) && i <= n
    && var p := Refilled(l, n, i);
       && |w| == |c| && ListsOk(w, n, count, p)
       && NoRepeats(locks) && GlobalHead(n) in locks
       && (forall y :: 0 <= y < |c| && y !in locks ==> w[y] == c[y])
       && (forall y :: 0 <= y < |c| ==> w[y].time == c[y].time)
       && (forall y :: y in locks ==> MayHold(n, p, i, y))
       && (p.lists[Global] != [] ==> p.lists[Global][0] in locks)
  }

  /** The head of the global list, heads of free lists already visited, and migrated cells. */
  ghost predicate MayHold(n: nat, p: Layout, i: nat, y: int) {
    || y == GlobalHead(n)
    || 8 * n <= y < FreeHead(n, i)
    || (y in p.home && p.home[y] == Global)
  }

  /** The next free list and its first cell have not been touched yet. */
  lemma MigrationReads(c: seq<Cell>, l: Layout, n: nat, count: nat, w: seq<Cell>, locks: seq<int>, i: nat)
    requires Migrating(c, l, n, count, w, locks, i) && i < n
    ensures var p, h := Refilled(l, n, i), FreeHead(n, i);
            && h < |c| && h !in locks && w[h] == c[h] && GlobalHead(n) < |c|
            && (p.lists[Free(i)] == [] <==> c[h].next == h)
            && (p.lists[Free(i)] != [] ==>
                  var x := c[h].next;
                  && x == p.lists[Free(i)][0] && 0 <= x < |c| && x !in locks && w[x] == c[x] && x != h
                  && x != GlobalHead(n))
  {
    var p, h := Refilled(l, n, i), FreeHead(n, i);
    assert ListOk(w, n, count, p, Free(i));
    EmptyFreeCircle(w, h, p.lists[Free(i)], false);
    assert h !in p.home;
    assert !MayHold(n, p, i, h);
    if p.lists[Free(i)] != [] {
      var x := p.lists[Free(i)][0];
      assert x in p.lists[Free(i)];
      TakeFirstFree(w, n, count, p, Free(i));
      assert !MayHold(n, p, i, x);
    }
  }

  lemma MigrationStep(c: seq<Cell>, l: Layout, n: nat, count: nat, w: seq<Cell>, locks: seq<int>, i: nat)
    requires Migrating(c, l, n, count, w, locks, i) && i < n
    requires Refilled(l, n, i).lists[Free(i)] != []
    ensures var h, g := FreeHead(n, i), GlobalHead(n);
            && h < |c| && g < |c|
            && var x := c[h].next;
               && 0 <= x < |c| && x != g && w[h].next == x
               && Migrating(c, l, n, count, PushFree(PopFree(w, h), g, x, c[x].time),
                            locks + [h, x], i + 1)
  {
    MigrationReads(c, l, n, count, w, locks, i);
    var p, h := Refilled(l, n, i), FreeHead(n, i);
    var x := c[h].next;
    MoveFirstOk(w, n, count, p, Free(i), Global, c[x].time);
    forall y | y in locks + [h, x] ensures MayHold(n, Refilled(l, n, i + 1), i + 1, y) {
      assert y in locks ==> MayHold(n, p, i, y);
    }
  }

  /** The copies `w` of an allocation that has locked the first cell of its source list. */
  ghost predicate Located(c: seq<Cell>, l: Layout, n: nat, count: nat, core: nat, w: seq<Cell>, locks: seq<int>)
    requires HasLists(n, l) && core < n
  {
    var (p, a) := Source(l, n, core);
    && |w| == |c| && ListsOk(w, n, count, p) && p.lists[a] != []
    && NoRepeats(locks) && Head(n, a) in locks && p.lists[a][0] in locks
    && (forall y :: 0 <= y < |c| && y !in locks ==> w[y] == c[y])
    && (forall y :: 0 <= y < |c| ==> w[y].time == c[y].time)
    && (forall y :: y in locks ==> 8 * n <= y && (y in p.home ==> !p.home[y].Ring?))
  }

  lemma LocatedDirectly(c: seq<Cell>, l: Layout, n: nat, count: nat, core: nat, locks: seq<int>)
    requires ListsOk(c, n, count, l) && core < n && Source(l, n, core).0 == l
    requires var a := Source(l, n, core).1;
             && l.lists[a] != [] && Head(n, a) < |c|
             && (locks == [Head(n, a), c[Head(n, a)].next] || locks == [c[Head(n, a)].next, Head(n, a)])
    ensures Located(c, l, n, count, core, c, locks)
  {
    var a := Source(l, n, core).1;
    TakeFirstFree(c, n, count, l, a);
    assert ListOk(c, n, count, l, a);
    assert Head(n, a) !in l.home;
  }

  lemma LocatedByRefill(c: seq<Cell>, l: Layout, n: nat, count: nat, core: nat, w: seq<Cell>, locks: seq<int>)
    requires Migrating(c, l, n, count, w, locks, n) && core < n
    requires Source(l, n, core).0 == Refilled(l, n, n) && Refilled(l, n, n).lists[Global] != []
    requires Source(l, n, core).1 == Global
    ensures Located(c, l, n, count, core, w, locks)
  {
    var p := Refilled(l, n, n);
    forall y | y in locks ensures 8 * n <= y && (y in p.home ==> !p.home[y].Ring?) {
      assert MayHold(n, p, n, y);
    }
  }

  /** The ring that the cell is appended to has not been touched, nor are its head or last cell
      locked. */
  lemma InstallReads(c: seq<Cell>, l: Layout, n: nat, count: nat, core: nat, w: seq<Cell>, locks: seq<int>)
    requires HasLists(n, l) && core < n && Located(c, l, n, count, core, w, locks)
    ensures var h := AllocHead(core);
            && h < |c| && h !in locks && w[h] == c[h]
            && 0 <= c[h].prev < |c| && (c[h].prev != h ==> c[h].prev !in locks)
  {
    var h, p := AllocHead(core), Source(l, n, core).0;
    assert ListOk(w, n, count, p, Ring(core));
    var s := p.lists[Ring(core)];
    assert Link(w, h, s, true, |s|);
    if w[h].prev != h {
      assert w[h].prev in s;
    }
  }

  /** The whole effect of an allocation on cells and lists. */
  lemma AllocationOk(c: seq<Cell>, l: Layout, n: nat, count: nat, core: nat, w: seq<Cell>, locks: seq<int>,
                     time: int)
    requires ListsOk(c, n, count, l) && core < n && Located(c, l, n, count, core, w, locks)
    ensures var (p, a) := Source(l, n, core);
            var x, h, r := p.lists[a][0], Head(n, a), AllocHead(core);
            && h < |w| && r < |w| && 0 <= x < |w| && x != r && w[h].next == x
            && 0 <= PopFree(w, h)[r].prev < |w|
            && var d := Append(PopFree(w, h), r, x, time);
               && ListsOk(d, n, count, Allocated(l, n, core)) && OnlyTime(c, d, x, time)
               && IsIndexCell(n, count, x) && x in l.home && !l.home[x].Ring?
               && x in Allocated(l, n, core).home && Allocated(l, n, core).home[x].Ring?
  {
    AllocationTakesFree(c, n, count, l, core);
    var (p, a) := Source(l, n, core);
    InstallOk(w, n, count, p, a, Ring(core), time);
    AppendTimes(PopFree(w, Head(n, a)), AllocHead(core), p.lists[a][0], time);
  }

  // ---- Rejuvenation and expiration

  /** The lists after cell number `k` of a ring has moved to its end. */
  ghost function Lifted(l: Layout, a: List, k: nat): Layout
    requires a in l.lists && k < |l.lists[a]|
  {
    var t := Taken(l, a, k);
    Given(t, a, t.lists[a] + [l.lists[a][k]], l.lists[a][k])
  }

  /** The layouts before and after a rejuvenation of the listed cell `x`. */
  ghost predicate IsLifted(l: Layout, m: Layout, x: int) {
    && x in l.home && l.home[x] in l.lists
    && exists k: nat :: k < |l.lists[l.home[x]]| && l.lists[l.home[x]][k] == x && m == Lifted(l, l.home[x], k)
  }

  lemma LiftOk(c: seq<Cell>, n: nat, count: nat, l: Layout, a: List, k: nat, time: int)
    requires ListsOk(c, n, count, l) && a in l.lists && a.Ring? && k < |l.lists[a]|
    ensures var x, h := l.lists[a][k], Head(n, a);
            && h < |c| && 0 <= x < |c| && x != h
            && 0 <= c[x].prev < |c| && 0 <= c[x].next < |c|
            && 0 <= Unlink(c, x)[h].prev < |c|
            && var d := Append(Unlink(c, x), h, x, time);
               && ListsOk(d, n, count, Lifted(l, a, k)) && OnlyTime(c, d, x, time)
  {
    TakeFromRing(c, n, count, l, a, k);
    assert ListOk(c, n, count, l, a);
    GiveRing(Unlink(c, l.lists[a][k]), n, count, Taken(l, a, k), l.lists[a][k], a, time);
    UnlinkTimes(c, l.lists[a][k]);
    AppendTimes(Unlink(c, l.lists[a][k]), Head(n, a), l.lists[a][k], time);
  }

  /** The neighbours of a ring's cell that is not its last, and the ring's last cell. */
  lemma LiftReads(c: seq<Cell>, n: nat, count: nat, l: Layout, a: List, k: nat)
    requires ListsOk(c, n, count, l) && a in l.lists && a.Ring? && k < |l.lists[a]|
    ensures var s, h := l.lists[a], Head(n, a);
            var x := s[k];
            && 0 <= x < |c| && h < |c|
            && c[x].listInd == h && (c[x].next == h <==> k == |s| - 1)
            && c[x].prev == Node(h, s, k) && c[x].next == Node(h, s, k + 2)
            && c[h].prev == s[|s| - 1] && 0 <= c[h].prev < |c|
            && 0 <= c[x].prev < |c| && 0 <= c[x].next < |c|
            && c[x].prev != x && c[x].next != x && h != x
            && (k < |s| - 1 ==> c[h].prev != x && c[h].prev != h && c[x].prev != c[x].next
                                && c[h].prev != c[x].prev)
  {
    var s, h := l.lists[a], Head(n, a);
    assert ListOk(c, n, count, l, a);
    RingNeighbours(c, h, s, k);
    assert Link(c, h, s, true, |s|);
    assert forall i :: 0 <= i < |s| ==> s[i] in s;
  }

  lemma LiftLast(l: Layout, a: List)
    requires a in l.lists && l.lists[a] != [] && l.lists[a][|l.lists[a]| - 1] in l.home
    requires l.home[l.lists[a][|l.lists[a]| - 1]] == a
    ensures Lifted(l, a, |l.lists[a]| - 1) == l
  {
    var s := l.lists[a];
    assert s[..|s| - 1] + s[|s|..] + [s[|s| - 1]] == s;
  }

  /** The lists after the first cell of a core's ring has become the first of the core's free list. */
  ghost function Expired(l: Layout, core: nat): Layout
    requires Ring(core) in l.lists && Free(core) in l.lists && l.lists[Ring(core)] != []
  {
    MoveFirst(l, Ring(core), Free(core))
  }

  lemma ExpireOk(c: seq<Cell>, n: nat, count: nat, l: Layout, core: nat, time: int)
    requires ListsOk(c, n, count, l) && core < n && l.lists[Ring(core)] != []
    ensures var x, f := l.lists[Ring(core)][0], FreeHead(n, core);
            && 0 <= x < |c| && f < |c| && x != f
            && 0 <= c[x].prev < |c| && 0 <= c[x].next < |c|
            && c[x].prev != f && c[x].next != f
            && var d := PushFree(Unlink(c, x), f, x, time);
               ListsOk(d, n, count, Expired(l, core)) && OnlyTime(c, d, x, time)
  {
    TakeFromRing(c, n, count, l, Ring(core), 0);
    LiftReads(c, n, count, l, Ring(core), 0);
    assert ListOk(c, n, count, l, Ring(core));
    var s := l.lists[Ring(core)];
    assert c[s[0]].next == AllocHead(core) || c[s[0]].next in s;
    GiveFree(Unlink(c, s[0]), n, count, Taken(l, Ring(core), 0), s[0], Free(core), time);
    UnlinkTimes(c, s[0]);
  }

  /** The lists after cell number `k` of ring `a` has become the first of the free list of `core`. */
  ghost function Released(l: Layout, a: List, k: nat, core: nat): Layout
    requires a in l.lists && Free(core) in l.lists && k < |l.lists[a]|
  {
    var t := Taken(l, a, k);
    Given(t, Free(core), [l.lists[a][k]] + t.lists[Free(core)], l.lists[a][k])
  }

  /** The layouts before and after core `core` has freed the listed cell `x`. */
  ghost predicate IsReleased(l: Layout, m: Layout, core: nat, x: int) {
    && x in l.home && l.home[x] in l.lists && Free(core) in l.lists
    && exists k: nat :: k < |l.lists[l.home[x]]| && l.lists[l.home[x]][k] == x && m == Released(l, l.home[x], k, core)
  }

  lemma ReleaseOk(c: seq<Cell>, n: nat, count: nat, l: Layout, a: List, k: nat, core: nat)
    requires ListsOk(c, n, count, l) && a in l.lists && a.Ring? && core < n && k < |l.lists[a]|
    ensures var x, f := l.lists[a][k], FreeHead(n, core);
            && 0 <= x < |c| && f < |c| && x != f
            && 0 <= c[x].prev < |c| && 0 <= c[x].next < |c|
            && c[x].prev != f && c[x].next != f && c[x].prev != x && c[x].next != x
            && var d := PushFree(Unlink(c, x), f, x, c[x].time);
               ListsOk(d, n, count, Released(l, a, k, core)) && OnlyTime(c, d, x, c[x].time)
  {
    TakeFromRing(c, n, count, l, a, k);
    LiftReads(c, n, count, l, a, k);
    assert ListOk(c, n, count, l, a);
    var s := l.lists[a];
    assert k > 0 ==> s[k - 1] in s;
    assert k + 1 < |s| ==> s[k + 1] in s;
    GiveFree(Unlink(c, s[k]), n, count, Taken(l, a, k), s[k], Free(core), c[s[k]].time);
    UnlinkTimes(c, s[k]);
  }

  lemma ReleaseHolds(l: Layout, a: List, k: nat, core: nat)
    requires a in l.lists && Free(core) in l.lists && k < |l.lists[a]| && Held(l, l.lists[a][k])
    requires l.home[l.lists[a][k]] == a
    ensures NoLongerHeld(l, Released(l, a, k, core), l.lists[a][k])
    ensures IsReleased(l, Released(l, a, k, core), core, l.lists[a][k])
  {
  }

  // ---- Expiry times along a ring

  ghost predicate TimedBy(c: seq<Cell>, s: seq<int>, bound: int, i: int)
    requires 0 <= i < |s|
  {
    0 <= s[i] < |c| && c[s[i]].time <= bound
  }

  ghost predicate InOrder(c: seq<Cell>, s: seq<int>, i: int, j: int)
    requires 0 <= i < |s| && 0 <= j < |s|
  {
    0 <= s[i] < |c| && 0 <= s[j] < |c| && c[s[i]].time <= c[s[j]].time
  }

  ghost predicate RingSorted(c: seq<Cell>, s: seq<int>, bound: int) {
    && (forall i {:trigger TimedBy(c, s, bound, i)} :: 0 <= i < |s| ==> TimedBy(c, s, bound, i))
    && (forall i, j {:trigger InOrder(c, s, i, j)} :: 0 <= i < j < |s| ==> InOrder(c, s, i, j))
  }

  /** Every ring is sorted by expiry time, and no expiry time on it is above the ring's bound. */
  ghost predicate Sorted(c: seq<Cell>, n: nat, l: Layout, bounds: seq<int>)
    requires HasLists(n, l) && |bounds| == n
  {
    forall i: nat {:trigger Ring(i)} :: i < n ==> RingSorted(c, l.lists[Ring(i)], bounds[i])
  }

  /** Rings from which cells are removed, and to whose end a cell with the latest time is added, stay
      sorted. */
  lemma RingStaysSorted(c: seq<Cell>, d: seq<Cell>, s: seq<int>, k: nat, x: int, bound: int)
    requires RingSorted(c, s, bound) && |d| == |c| && k <= |s|
    requires forall y :: 0 <= y < |c| && y != x ==> d[y].time == c[y].time
    requires forall i :: 0 <= i < |s| && i != k ==> s[i] != x
    ensures k == |s| ==> RingSorted(d, s, bound)
    ensures k < |s| ==> RingSorted(d, s[..k] + s[k + 1..], bound)
    ensures 0 <= x < |c| && d[x].time == bound ==>
              RingSorted(d, (if k == |s| then s else s[..k] + s[k + 1..]) + [x], bound)
  {
    var t := if k == |s| then s else s[..k] + s[k + 1..];
    WithoutStaysSorted(c, d, s, k, x, bound);
    if 0 <= x < |c| && d[x].time == bound {
      AppendStaysSorted(d, t, x, bound);
    }
  }

  lemma WithoutStaysSorted(c: seq<Cell>, d: seq<Cell>, s: seq<int>, k: nat, x: int, bound: int)
    requires RingSorted(c, s, bound) && |d| == |c| && k <= |s|
    requires forall y :: 0 <= y < |c| && y != x ==> d[y].time == c[y].time
    requires forall i :: 0 <= i < |s| && i != k ==> s[i] != x
    ensures RingSorted(d, if k == |s| then s else s[..k] + s[k + 1..], bound)
  {
    var t := if k == |s| then s else s[..k] + s[k + 1..];
    forall i | 0 <= i < |t| ensures TimedBy(d, t, bound, i) {
      assert TimedBy(c, s, bound, if i < k then i else i + 1);
    }
    forall i, j | 0 <= i < j < |t| ensures InOrder(d, t, i, j) {
      assert InOrder(c, s, if i < k then i else i + 1, if j < k then j else j + 1);
    }
  }

  lemma AppendStaysSorted(d: seq<Cell>, t: seq<int>, x: int, bound: int)
    requires RingSorted(d, t, bound) && 0 <= x < |d| && d[x].time == bound
    ensures RingSorted(d, t + [x], bound)
  {
    forall i | 0 <= i < |t + [x]| ensures TimedBy(d, t + [x], bound, i) {
      assert i < |t| ==> TimedBy(d, t, bound, i);
    }
    forall i, j | 0 <= i < j < |t + [x]| ensures InOrder(d, t + [x], i, j) {
      assert TimedBy(d, t, bound, i) && (j < |t| ==> InOrder(d, t, i, j));
    }
  }

  lemma NewIsLatest(c: seq<Cell>, d: seq<Cell>, n: nat, count: nat, l: Layout, m: Layout, core: nat, x: int,
                    bounds: seq<int>, time: int)
    requires ListsOk(c, n, count, l) && HasLists(n, m) && core < n == |bounds| && !Held(l, x)
    requires Sorted(c, n, l, bounds) && bounds[core] <= time
    requires OnlyTime(c, d, x, time) && Appended(l, m, n, core, x)
    ensures Sorted(d, n, m, bounds[core := time])
  {
    forall i: nat | i < n ensures RingSorted(d, m.lists[Ring(i)], bounds[core := time][i]) {
      assert ListOk(c, n, count, l, Ring(i));
      var s := l.lists[Ring(i)];
      if i == core {
        RingSortedRaise(c, s, bounds[i], time);
        RingStaysSorted(c, d, s, |s|, x, time);
      } else {
        RingStaysSorted(c, d, s, |s|, x, bounds[i]);
      }
    }
  }

  lemma RingSortedRaise(c: seq<Cell>, s: seq<int>, bound: int, time: int)
    requires RingSorted(c, s, bound) && bound <= time
    ensures RingSorted(c, s, time)
  {
    forall i | 0 <= i < |s| ensures TimedBy(c, s, time, i) {
      assert TimedBy(c, s, bound, i);
    }
  }

  lemma LiftedIsLatest(c: seq<Cell>, d: seq<Cell>, n: nat, count: nat, l: Layout, m: Layout, x: int,
                       bounds: seq<int>, time: int)
    requires ListsOk(c, n, count, l) && HasLists(n, m) && Held(l, x) && IsLifted(l, m, x) && |bounds| == n
    requires l.home[x].core < n && bounds[l.home[x].core] <= time
    requires Sorted(c, n, l, bounds) && OnlyTime(c, d, x, time)
    ensures Sorted(d, n, m, bounds[l.home[x].core := time])
  {
    var a := l.home[x];
    var k: nat :| k < |l.lists[a]| && l.lists[a][k] == x && m == Lifted(l, a, k);
    assert ListOk(c, n, count, l, a);
    forall i: nat | i < n ensures RingSorted(d, m.lists[Ring(i)], bounds[a.core := time][i]) {
      assert ListOk(c, n, count, l, Ring(i));
      var s := l.lists[Ring(i)];
      if Ring(i) == a {
        RingSortedRaise(c, s, bounds[i], time);
        RingStaysSorted(c, d, s, k, x, time);
      } else {
        RingStaysSorted(c, d, s, |s|, x, bounds[i]);
      }
    }
  }

  lemma ExpiryKeepsSorted(c: seq<Cell>, d: seq<Cell>, n: nat, count: nat, l: Layout, core: nat, bounds: seq<int>)
    requires ListsOk(c, n, count, l) && core < n == |bounds| && l.lists[Ring(core)] != []
    requires Sorted(c, n, l, bounds) && OnlyTime(c, d, l.lists[Ring(core)][0], MAX_TIME)
    ensures HasLists(n, Expired(l, core)) && Sorted(d, n, Expired(l, core), bounds)
  {
    var x, m := l.lists[Ring(core)][0], Expired(l, core);
    assert ListOk(c, n, count, l, Ring(core));
    assert x in l.lists[Ring(core)];
    forall i: nat | i < n ensures RingSorted(d, m.lists[Ring(i)], bounds[i]) {
      assert ListOk(c, n, count, l, Ring(i));
      var s := l.lists[Ring(i)];
      RingStaysSorted(c, d, s, if i == core then 0 else |s|, x, bounds[i]);
    }
  }

  // ---- Which cells are allocated

  /** The cell is on a ring. */
  ghost predicate Held(l: Layout, x: int) {
    x in l.home && l.home[x].Ring?
  }

  ghost predicate IndexHeld(l: Layout, n: nat, i: int) {
    Held(l, i + Shift(n))
  }

  ghost predicate AllHeld(l: Layout, n: nat, count: nat) {
    forall i {:trigger IndexHeld(l, n, i)} :: 0 <= i < count ==> IndexHeld(l, n, i)
  }

  ghost predicate SameHeld(l: Layout, m: Layout) {
    forall y {:trigger Held(m, y)} :: Held(m, y) <==> Held(l, y)
  }

  ghost predicate NowHeld(l: Layout, m: Layout, x: int) {
    !Held(l, x) && forall y {:trigger Held(m, y)} :: Held(m, y) <==> y == x || Held(l, y)
  }

  ghost predicate NoLongerHeld(l: Layout, m: Layout, x: int) {
    Held(l, x) && forall y {:trigger Held(m, y)} :: Held(m, y) <==> y != x && Held(l, y)
  }

  /** The cell that the refill takes from core `i` is free. */
  ghost predicate FrontIsFree(l: Layout, n: nat, i: nat)
    requires HasLists(n, l) && i < n
  {
    var s := Refilled(l, n, i).lists[Free(i)];
    s != [] ==> !Held(l, s[0])
  }

  lemma FrontsAreFree(c: seq<Cell>, n: nat, count: nat, l: Layout)
    requires ListsOk(c, n, count, l)
    ensures forall i: nat {:trigger FrontIsFree(l, n, i)} :: i < n ==> FrontIsFree(l, n, i)
  {
    forall i: nat | i < n ensures FrontIsFree(l, n, i) {
      RefilledHome(c, n, count, l, i);
      var s := Refilled(l, n, i).lists[Free(i)];
      assert s != [] ==> s[0] in s;
    }
  }

  lemma {:induction false} RefillHoldsSame(l: Layout, n: nat, i: nat)
    requires HasLists(n, l) && i <= n
    requires forall i: nat {:trigger FrontIsFree(l, n, i)} :: i < n ==> FrontIsFree(l, n, i)
    ensures SameHeld(l, Refilled(l, n, i))
  {
    if i > 0 {
      RefillHoldsSame(l, n, i - 1);
      assert FrontIsFree(l, n, i - 1);
      MigrationHolds(l, Refilled(l, n, i - 1), i - 1);
    }
  }

  lemma MigrationHolds(l: Layout, p: Layout, i: nat)
    requires SameHeld(l, p) && Free(i) in p.lists && Global in p.lists
    requires p.lists[Free(i)] != [] ==> !Held(l, p.lists[Free(i)][0])
    ensures SameHeld(l, Migrated(p, i))
  {
    forall y ensures Held(Migrated(p, i), y) <==> Held(l, y) {
      assert Held(p, y) <==> Held(l, y);
      assert p.lists[Free(i)] != [] ==> !Held(p, p.lists[Free(i)][0]);
    }
  }

  /** An allocation changes the state of the one index it returns. */
  lemma AllocationHolds(c: seq<Cell>, n: nat, count: nat, l: Layout, core: nat)
    requires ListsOk(c, n, count, l) && core < n
    requires Source(l, n, core).0.lists[Source(l, n, core).1] != []
    ensures NowHeld(l, Allocated(l, n, core), Source(l, n, core).0.lists[Source(l, n, core).1][0])
  {
    AllocationTakesFree(c, n, count, l, core);
    FrontsAreFree(c, n, count, l);
    RefillHoldsSame(l, n, n);
    forall y ensures Held(Source(l, n, core).0, y) <==> Held(l, y) {
    }
  }

  lemma LiftHolds(l: Layout, a: List, k: nat)
    requires a in l.lists && k < |l.lists[a]| && l.lists[a][k] in l.home && l.home[l.lists[a][k]] == a
    ensures IsLifted(l, Lifted(l, a, k), l.lists[a][k]) && SameHeld(l, Lifted(l, a, k))
  {
  }

  lemma ExpiryHolds(c: seq<Cell>, n: nat, count: nat, l: Layout, core: nat)
    requires ListsOk(c, n, count, l) && core < n && l.lists[Ring(core)] != []
    ensures NoLongerHeld(l, Expired(l, core), l.lists[Ring(core)][0])
  {
    assert ListOk(c, n, count, l, Ring(core));
    assert l.lists[Ring(core)][0] in l.lists[Ring(core)];
  }

  /** The free index `i` is now allocated, and the last one on the core's ring. */
  ghost predicate AllocatedAs(l: Layout, m: Layout, n: nat, count: nat, core: nat, i: int) {
    && HasLists(n, l) && HasLists(n, m) && 0 <= i < count
    && NowHeld(l, m, i + Shift(n)) && Appended(l, m, n, core, i + Shift(n))
  }

  lemma AllocationDone(c: seq<Cell>, l: Layout, n: nat, count: nat, core: nat, w: seq<Cell>, locks: seq<int>,
                       time: int)
    requires ListsOk(c, n, count, l) && core < n && Located(c, l, n, count, core, w, locks)
    ensures var (p, a) := Source(l, n, core);
            var x, h, r := p.lists[a][0], Head(n, a), AllocHead(core);
            && h < |w| && r < |w| && 0 <= x < |w| && w[h].next == x
            && 0 <= PopFree(w, h)[r].prev < |w|
            && var d := Append(PopFree(w, h), r, x, time);
               && ListsOk(d, n, count, Allocated(l, n, core)) && OnlyTime(c, d, x, time)
               && AllocatedAs(l, Allocated(l, n, core), n, count, core, x - Shift(n))
  {
    AllocationOk(c, l, n, count, core, w, locks, time);
    AllocationTakesFree(c, n, count, l, core);
    AllocationHolds(c, n, count, l, core);
  }

  /** `list_ind == -1` exactly on cells that are on no ring. */
  lemma FreeByListInd(c: seq<Cell>, n: nat, count: nat, l: Layout, x: int)
    requires ListsOk(c, n, count, l) && Shift(n) <= x < |c|
    ensures c[x].listInd == -1 <==> !Held(l, x)
    ensures Held(l, x) ==> l.home[x] in l.lists && x in l.lists[l.home[x]] && c[x].listInd == Head(n, l.home[x])
  {
    if x < Shift(n) + count {
      AllocatedByListInd(c, n, count, l, x);
    } else {
      RestIsFree(c, n, count, l, x);
    }
  }

  class NfosDoubleChainExp {
    const cells: array<Cell>
    const n: nat            // number of data plane cores
    const size: nat
    const validity: int
    var currFreeList: nat
    ghost var layout: Layout

    ghost function Count(): nat
      requires n > 0
    {
      Usable(n, size / n)
    }

    ghost predicate Valid()
      reads this, cells
    {
      && 0 < n <= size && cells.Length == Shift(n) + size && Count() <= size
      && currFreeList < n
      && ListsOk(cells[..], n, Count(), layout)
    }

    /** The index is allocated. */
    ghost predicate IsAllocated(i: int)
      reads this
    {
      IndexHeld(layout, n, i)
    }

    /** `nfos_dchain_exp_allocate_t`, when memory suffices. */
    constructor (size: nat, validity: int, n: nat)
      requires 0 < n <= size
      ensures Valid() && fresh(cells) && this.size == size && this.n == n && this.validity == validity
      ensures layout == InitialLayout(n, size / n) && currFreeList == 0
      ensures forall i :: !IsAllocated(i)
    {
      this.n := n;
      this.size := size;
      this.validity := validity;
      this.currFreeList := 0;
      this.layout := InitialLayout(n, size / n);
      this.cells := new Cell[Shift(n) + size](_ => Cell(0, 0, 0, 0));
      new;
      UsableIsAll(size, n);
      InitLists(cells, size, n);
    }

    /** The end of a transaction: all copies are installed. */
    method Commit(w: seq<Cell>, ghost m: Layout)
      requires Valid() && |w| == cells.Length && ListsOk(w, n, Count(), m)
      modifies cells, this`layout
      ensures Valid() && cells[..] == w && layout == m
    {
      forall x | 0 <= x < cells.Length {
        cells[x] := w[x];
      }
      layout := m;
      assert cells[..] == w;
    }

    /** One iteration of the loop that refills the global list. */
    method MigrateOne(i: nat, busy: set<int>, pending: seq<Cell>, held: seq<int>)
      returns (ok: bool, w: seq<Cell>, locks: seq<int>)
      requires Valid() && i < n && Migrating(cells[..], layout, n, Count(), pending, held, i)
      ensures ok ==> Migrating(cells[..], layout, n, Count(), w, locks, i + 1)
      ensures NoRepeats(locks) && (!ok ==> busy != {})
      ensures forall y :: y in locks ==> y in held || y !in busy
    {
      w, locks := pending, held;
      ghost var p := Refilled(layout, n, i);
      var h, g := FreeHead(n, i), GlobalHead(n);
      MigrationReads(cells[..], layout, n, Count(), w, locks, i);
      var migrated := cells[h].next;
      if migrated == h {
        return true, w, locks;
      }
      if h in busy {
        return false, w, locks;
      }
      locks := locks + [h];
      w := w[h := cells[h].(next := cells[migrated].next, prev := cells[migrated].next)];
      if migrated in busy {
        return false, w, locks;
      }
      locks := locks + [migrated];
      w := w[migrated := Cell(w[g].next, w[g].next, -1, cells[migrated].time)];
      w := w[g := w[g].(next := migrated, prev := migrated)];
      assert w == PushFree(PopFree(pending, h), g, migrated, cells[migrated].time);
      MigrationStep(cells[..], layout, n, Count(), pending, held, i);
      assert locks == held + [h, migrated];
      ok := true;
    }

    /** The first half of an allocation: find a free cell and lock it together with the head of its
        list. */
    method Locate(core: nat, busy: set<int>)
      returns (ok: bool, found: bool, w: seq<Cell>, locks: seq<int>, h: int)
      requires Valid() && core < n
      ensures NoRepeats(locks) && (!ok ==> busy != {})
      ensures forall y :: y in locks ==> y !in busy
      ensures ok ==> var (p, a) := Source(layout, n, core);
                h == Head(n, a) && (found <==> p.lists[a] != [])
      ensures ok && found ==> Located(cells[..], layout, n, Count(), core, w, locks)
    {
      var fl, g := FreeHead(n, core), GlobalHead(n);
      w, locks, h, found := cells[..], [], g, true;
      assert ListOk(cells[..], n, Count(), layout, Free(core));
      assert ListOk(cells[..], n, Count(), layout, Global);
      EmptyFreeCircle(cells[..], fl, layout.lists[Free(core)], false);
      EmptyFreeCircle(cells[..], g, layout.lists[Global], false);
      if cells[fl].next != fl {
        var first := cells[fl].next;
        LocatedDirectly(cells[..], layout, n, Count(), core, [first, fl]);
        if first in busy {
          return false, found, w, locks, fl;
        }
        locks := locks + [first];
        if fl in busy {
          return false, found, w, locks, fl;
        }
        return true, true, w, locks + [fl], fl;
      }
      if g in busy {
        return false, found, w, locks, g;
      }
      if cells[g].next != g {
        var first := cells[g].next;
        LocatedDirectly(cells[..], layout, n, Count(), core, [g, first]);
        if first in busy {
          return false, found, w, locks, g;
        }
        return true, true, w, [g, first], g;
      }
      ok, w, locks := RefillGlobal(busy);
      if !ok {
        return false, found, w, locks, g;
      }
      assert ListOk(w, n, Count(), Refilled(layout, n, n), Global);
      EmptyFreeCircle(w, g, Refilled(layout, n, n).lists[Global], false);
      found := w[g].next != g;
      if found {
        LocatedByRefill(cells[..], layout, n, Count(), core, w, locks);
      }
    }

    /** The loop that refills the global list, whose head is locked. */
    method RefillGlobal(busy: set<int>) returns (ok: bool, w: seq<Cell>, locks: seq<int>)
      requires Valid() && layout.lists[Global] == [] && GlobalHead(n) !in busy
      ensures NoRepeats(locks) && (!ok ==> busy != {})
      ensures forall y :: y in locks ==> y !in busy
      ensures ok ==> Migrating(cells[..], layout, n, Count(), w, locks, n)
    {
      w, locks, ok := cells[..], [GlobalHead(n)], true;
      for i := 0 to n
        invariant Migrating(cells[..], layout, n, Count(), w, locks, i) && ok
        invariant forall y :: y in locks ==> y !in busy
      {
        ok, w, locks := MigrateOne(i, busy, w, locks);
        if !ok {
          return;
        }
      }
    }

    /** `nfos_dchain_exp_allocate_new_index_t` on core `core`. */
    method AllocateNewIndex(core: nat, time: int, busy: set<int>) returns (r: Outcome, locks: seq<int>)
      requires Valid() && core < n
      modifies cells, this`layout
      ensures Valid() && NoRepeats(locks)
      ensures r.Abort? ==> busy != {}
      ensures !r.Ok? ==> cells[..] == old(cells[..]) && layout == old(layout)
      ensures r.Nothing? ==> AllHeld(layout, n, Count())
      ensures r.Ok? ==> AllocatedAs(old(layout), layout, n, Count(), core, r.index)
                        && OnlyTime(old(cells[..]), cells[..], r.index + Shift(n), time + validity)
      ensures r.Ok? ==>
                && old(Source(layout, n, core)).0.lists[old(Source(layout, n, core)).1] != []
                && layout == old(Allocated(layout, n, core))
    {
      var ok, found, w, h;
      ok, found, w, locks, h := Locate(core, busy);
      if !ok {
        return Abort, locks;
      }
      if !found {
        forall i | 0 <= i < Count() ensures IndexHeld(layout, n, i) {
          EmptySourceMeansFull(cells[..], n, Count(), layout, core, i + Shift(n));
        }
        return Nothing, locks;
      }
      r, locks := AllocateFound(core, time, h, w, locks, busy);
    }

    /** An allocation that has found its cell. */
    method AllocateFound(core: nat, time: int, h: int, pending: seq<Cell>, held: seq<int>, busy: set<int>)
      returns (r: Outcome, locks: seq<int>)
      requires Valid() && core < n && Located(cells[..], layout, n, Count(), core, pending, held)
      requires h == Head(n, Source(layout, n, core).1)
      modifies cells, this`layout
      ensures Valid() && NoRepeats(locks) && !r.Nothing?
      ensures r.Abort? ==> busy != {} && cells[..] == old(cells[..]) && layout == old(layout)
      ensures r.Ok? ==>
                && old(Source(layout, n, core)).0.lists[old(Source(layout, n, core)).1] != []
                && layout == old(Allocated(layout, n, core))
                && AllocatedAs(old(layout), layout, n, Count(), core, r.index)
                && OnlyTime(old(cells[..]), cells[..], r.index + Shift(n), time + validity)
    {
      ghost var l := layout;
      AllocationDone(cells[..], l, n, Count(), core, pending, held, time + validity);
      var first := pending[h].next;
      var ok, w;
      ok, w, locks := Install(core, time, h, first, pending, held, busy);
      if !ok {
        return Abort, locks;
      }
      Commit(w, Allocated(l, n, core));
      r := Ok(first - Shift(n));
    }

    /** The second half of an allocation: move the cell from its free list to the core's ring. */
    method Install(core: nat, time: int, h: int, first: int, pending: seq<Cell>, held: seq<int>, busy: set<int>)
      returns (ok: bool, w: seq<Cell>, locks: seq<int>)
      requires Valid() && core < n && Located(cells[..], layout, n, Count(), core, pending, held)
      requires var (p, a) := Source(layout, n, core); h == Head(n, a) && first == p.lists[a][0]
      ensures NoRepeats(locks) && (!ok ==> busy != {})
      ensures ok ==> var a := AllocHead(core);
                && 0 <= h < |pending| && pending[h].next == first && 0 <= first < |pending|
                && 0 <= PopFree(pending, h)[a].prev < |pending|
                && w == Append(PopFree(pending, h), a, first, time + validity)
    {
      ghost var s := Source(layout, n, core);
      InstallOk(pending, n, Count(), s.0, s.1, Ring(core), time + validity);
      InstallReads(cells[..], layout, n, Count(), core, pending, held);
      w, locks := pending, held;
      var a := AllocHead(core);
      w := w[h := w[h].(next := w[first].next, prev := w[first].next)];
      var last := cells[a].prev;
      w := w[first := Cell(last, a, a, time + validity)];
      if last != a {
        if last in busy {
          return false, w, locks;
        }
        locks := locks + [last];
        w := w[last := w[last].(next := first)];
        if a in busy {
          return false, w, locks;
        }
        locks := locks + [a];
        w := w[a := w[a].(prev := first)];
      } else {
        if a in busy {
          return false, w, locks;
        }
        locks := locks + [a];
        w := w[a := w[a].(next := first, prev := first)];
      }
      ok := true;
    }

    /** `nfos_dchain_exp_rejuvenate_index_t`. */
    method RejuvenateIndex(index: nat, time: int, busy: set<int>) returns (r: Outcome, locks: seq<int>)
      requires Valid() && index < size
      modifies cells, this`layout
      ensures Valid() && NoRepeats(locks)
      ensures r.Abort? ==> busy != {}
      ensures !r.Ok? ==> cells[..] == old(cells[..]) && layout == old(layout)
      ensures !r.Abort? ==> (r.Ok? <==> old(IsAllocated(index)))
      ensures r.Ok? ==> var x := index + Shift(n);
                && IsLifted(old(layout), layout, x)
                && SameHeld(old(layout), layout)
                && OnlyTime(old(cells[..]), cells[..], x, time + validity)
    {
      locks := [];
      var lifted := index + Shift(n);
      FreeByListInd(cells[..], n, Count(), layout, lifted);
      if cells[lifted].listInd == -1 {
        return Nothing, locks;
      }
      ghost var c, l, b := cells[..], layout, layout.home[lifted];
      ghost var k: nat :| k < |l.lists[b]| && l.lists[b][k] == lifted;
      LiftReads(c, n, Count(), l, b, k);
      LiftHolds(l, b, k);
      if cells[lifted].next == cells[lifted].listInd {
        if lifted in busy {
          return Abort, locks;
        }
        RefreshLast(lifted, b, time);
        return Ok(index), [lifted];
      }
      var ok;
      ok, locks := Lift(lifted, b, k, time, busy);
      r := if ok then Ok(index) else Abort;
    }

    /** The rejuvenation of a cell that is not the last of its ring. */
    method Lift(lifted: nat, ghost b: List, ghost k: nat, time: int, busy: set<int>)
      returns (ok: bool, locks: seq<int>)
      requires Valid() && b in layout.lists && b.Ring? && k + 1 < |layout.lists[b]|
      requires layout.lists[b][k] == lifted && lifted in layout.home && layout.home[lifted] == b
      modifies cells, this`layout
      ensures Valid() && NoRepeats(locks) && (!ok ==> busy != {})
      ensures !ok ==> cells[..] == old(cells[..]) && layout == old(layout)
      ensures ok ==> layout == old(Lifted(layout, b, k)) && OnlyTime(old(cells[..]), cells[..], lifted, time + validity)
    {
      ghost var c, l := cells[..], layout;
      var w;
      ok, w, locks := MoveToEnd(lifted, b, k, time, busy);
      if ok {
        LiftOk(c, n, Count(), l, b, k, time + validity);
        Commit(w, Lifted(l, b, k));
      }
    }

    /** The index is already at the end of its ring: only its time changes. */
    method RefreshLast(lifted: nat, ghost b: List, time: int)
      requires Valid() && lifted < cells.Length && b in layout.lists && layout.lists[b] != []
      requires layout.lists[b][|layout.lists[b]| - 1] == lifted
      requires lifted in layout.home && layout.home[lifted] == b
      modifies cells
      ensures Valid() && OnlyTime(old(cells[..]), cells[..], lifted, time + validity)
      ensures IsLifted(layout, layout, lifted)
    {
      ghost var c := cells[..];
      cells[lifted] := cells[lifted].(time := time + validity);
      TimesOnly(c, cells[..], n, Count(), layout);
      LiftLast(layout, b);
      LiftHolds(layout, b, |layout.lists[b]| - 1);
    }

    /** The relinking part of a rejuvenation: cell number `k` of ring `b` is not the ring's last. */
    method MoveToEnd(lifted: nat, ghost b: List, ghost k: nat, time: int, busy: set<int>)
      returns (ok: bool, w: seq<Cell>, locks: seq<int>)
      requires Valid() && b in layout.lists && b.Ring? && k + 1 < |layout.lists[b]|
      requires layout.lists[b][k] == lifted
      ensures NoRepeats(locks) && (!ok ==> busy != {})
      ensures ok ==> var c := cells[..];
                && lifted < |c| && 0 <= c[lifted].prev < |c| && 0 <= c[lifted].next < |c|
                && Head(n, b) < |c| && 0 <= Unlink(c, lifted)[Head(n, b)].prev < |c|
                && w == Append(Unlink(c, lifted), Head(n, b), lifted, time + validity)
    {
      LiftReads(cells[..], n, Count(), layout, b, k);
      var a, next, prev := cells[lifted].listInd, cells[lifted].next, cells[lifted].prev;
      w, locks := cells[..], [];
      if prev in busy {
        return false, w, locks;
      }
      locks := [prev];
      w := w[prev := w[prev].(next := next)];
      if next in busy {
        return false, w, locks;
      }
      locks := locks + [next];
      w := w[next := w[next].(prev := prev)];
      var last := cells[a].prev;
      if lifted in busy {
        return false, w, locks;
      }
      locks := locks + [lifted];
      w := w[lifted := w[lifted].(next := a, prev := last, time := time + validity)];
      if last != next {
        if last in busy {
          return false, w, locks;
        }
        locks := locks + [last];
        w := w[last := w[last].(next := lifted)];
      } else {
        w := w[next := w[next].(next := lifted)];
      }
      if a != prev {
        if a in busy {
          return false, w, locks;
        }
        locks := locks + [a];
        w := w[a := w[a].(prev := lifted)];
      } else {
        w := w[prev := w[prev].(prev := lifted)];
      }
      ok := true;
    }

    /** `nfos_dchain_exp_reset_curr_free_list`. */
    method ResetCurrFreeList()
      requires Valid()
      modifies this`currFreeList
      ensures Valid() && currFreeList == 0
    {
      currFreeList := 0;
    }

    /** The part of `nfos_dchain_exp_expire_one_index_t` that turns to the next core's ring. */
    method NextFreeList() returns (done: bool)
      requires Valid()
      modifies this`currFreeList
      ensures Valid() && (done <==> old(currFreeList) + 1 == n)
      ensures currFreeList == if done then 0 else old(currFreeList) + 1
    {
      done := false;
      currFreeList := currFreeList + 1;
      if currFreeList >= n {
        currFreeList := 0;
        done := true;
      }
    }

    /** `nfos_dchain_exp_expire_one_index_t`: it frees the oldest index of the current ring, or turns to
        the next ring.  `done` says that it sets `*expiration_done_out`. */
    method ExpireOneIndex(time: int, busy: set<int>) returns (r: Outcome, done: bool, locks: seq<int>)
      requires Valid()
      modifies cells, this`layout, this`currFreeList
      ensures Valid() && NoRepeats(locks)
      ensures r.Abort? ==> busy != {}
      ensures !r.Ok? ==> cells[..] == old(cells[..]) && layout == old(layout)
      ensures r.Nothing? ==>
                && (done <==> old(currFreeList) + 1 == n)
                && currFreeList == if done then 0 else old(currFreeList) + 1
      ensures !r.Nothing? ==> !done && currFreeList == old(currFreeList)
      ensures var s := old(layout.lists[Ring(currFreeList)]);
              && (r.Nothing? ==> s == [] || (0 <= s[0] < cells.Length && cells[s[0]].time >= time))
              && (r.Ok? ==>
                    && s != [] && s[0] == r.index + Shift(n) && 0 <= r.index < Count()
                    && old(cells[r.index + Shift(n)].time) < time
                    && OnlyTime(old(cells[..]), cells[..], r.index + Shift(n), MAX_TIME)
                    && layout == Expired(old(layout), currFreeList)
                    && NoLongerHeld(old(layout), layout, r.index + Shift(n)))
    {
      locks, done := [], false;
      var core := currFreeList;
      var a := AllocHead(core);
      ghost var c, l, s := cells[..], layout, layout.lists[Ring(core)];
      assert ListOk(c, n, Count(), l, Ring(core));
      EmptyFreeCircle(c, a, s, true);
      if cells[a].next == cells[a].prev && cells[a].next == a {
        done := NextFreeList();
        return Nothing, done, locks;
      }
      assert Link(c, a, s, true, 0) && s[0] in s;
      var freed := cells[a].next;
      if cells[freed].time >= time {
        done := NextFreeList();
        return Nothing, done, locks;
      }
      var ok, w;
      ok, w, locks := RemoveOldest(core, freed, busy);
      if !ok {
        return Abort, done, locks;
      }
      ExpireOk(c, n, Count(), l, core, MAX_TIME);
      ExpiryHolds(c, n, Count(), l, core);
      Commit(w, Expired(l, core));
      r := Ok(freed - Shift(n));
    }

    /** The relinking part of an expiration. */
    method RemoveOldest(core: nat, freed: nat, busy: set<int>)
      returns (ok: bool, w: seq<Cell>, locks: seq<int>)
      requires Valid() && core < n && layout.lists[Ring(core)] != []
      requires freed == layout.lists[Ring(core)][0]
      ensures NoRepeats(locks) && (!ok ==> busy != {})
      ensures ok ==> var c, f := cells[..], FreeHead(n, core);
                && freed < |c| && f < |c| && freed != f
                && 0 <= c[freed].prev < |c| && 0 <= c[freed].next < |c|
                && w == PushFree(Unlink(c, freed), f, freed, MAX_TIME)
    {
      LiftReads(cells[..], n, Count(), layout, Ring(core), 0);
      ExpireOk(cells[..], n, Count(), layout, core, MAX_TIME);
      var prev, next := cells[freed].prev, cells[freed].next;
      var f := FreeHead(n, core);
      w, locks := cells[..], [];
      if freed in busy {
        return false, w, locks;
      }
      locks := [freed];
      w := w[freed := Cell(cells[f].next, cells[f].next, -1, MAX_TIME)];
      if f in busy {
        return false, w, locks;
      }
      locks := locks + [f];
      w := w[f := w[f].(next := freed, prev := freed)];
      if prev != next {
        if next in busy {
          return false, w, locks;
        }
        locks := locks + [next];
        if prev in busy {
          return false, w, locks;
        }
        locks := locks + [prev];
        w := w[prev := w[prev].(next := next)];
        w := w[next := w[next].(prev := prev)];
      } else {
        if prev in busy {
          return false, w, locks;
        }
        locks := locks + [prev];
        w := w[prev := w[prev].(next := next)];
        w := w[prev := w[prev].(prev := prev)];
      }
      ok := true;
    }

    /** `nfos_dchain_impl_free_index` of the allocator without expiration: core `core` frees an index, no
        matter on whose ring it is. */
    method FreeIndex(core: nat, index: nat, busy: set<int>) returns (r: Outcome, locks: seq<int>)
      requires Valid() && core < n && index < size
      modifies cells, this`layout
      ensures Valid() && NoRepeats(locks)
      ensures r.Abort? ==> busy != {}
      ensures !r.Ok? ==> cells[..] == old(cells[..]) && layout == old(layout)
      ensures !r.Abort? ==> (r.Ok? <==> old(IsAllocated(index)))
      ensures r.Ok? ==>
                && NoLongerHeld(old(layout), layout, index + Shift(n))
                && IsReleased(old(layout), layout, core, index + Shift(n))
    {
      var freed := index + Shift(n);
      FreeByListInd(cells[..], n, Count(), layout, freed);
      if cells[freed].listInd == -1 {
        return Nothing, [];
      }
      ghost var l, a := layout, layout.home[freed];
      ghost var k: nat :| k < |l.lists[a]| && l.lists[a][k] == freed;
      ReleaseHolds(l, a, k, core);
      ReleaseOk(cells[..], n, Count(), l, a, k, core);
      var ok, w;
      ok, w, locks := Release(core, freed, a, k, busy);
      if !ok {
        return Abort, locks;
      }
      Commit(w, Released(l, a, k, core));
      r := Ok(index);
    }

    /** The relinking part of `nfos_dchain_impl_free_index`. */
    method Release(core: nat, freed: nat, ghost a: List, ghost k: nat, busy: set<int>)
      returns (ok: bool, w: seq<Cell>, locks: seq<int>)
      requires Valid() && core < n && a in layout.lists && a.Ring? && k < |layout.lists[a]|
      requires layout.lists[a][k] == freed
      ensures NoRepeats(locks) && (!ok ==> busy != {})
      ensures ok ==> var c, f := cells[..], FreeHead(n, core);
                && freed < |c| && f < |c| && freed != f
                && 0 <= c[freed].prev < |c| && 0 <= c[freed].next < |c|
                && w == PushFree(Unlink(c, freed), f, freed, c[freed].time)
    {
      ReleaseOk(cells[..], n, Count(), layout, a, k, core);
      var prev, next, f := cells[freed].prev, cells[freed].next, FreeHead(n, core);
      w, locks := cells[..], [];
      if prev in busy {
        return false, w, locks;
      }
      locks := [prev];
      if prev != next {
        if next in busy {
          return false, w, locks;
        }
        locks := locks + [next];
      }
      w := w[prev := w[prev].(next := next)];
      w := w[next := w[next].(prev := prev)];
      if freed in busy {
        return false, w, locks;
      }
      locks := locks + [freed];
      w := w[freed := w[freed].(next := cells[f].next, prev := cells[f].next, listInd := -1)];
      if f in busy {
        return false, w, locks;
      }
      locks := locks + [f];
      w := w[f := w[f].(next := freed, prev := freed)];
      ok := true;
    }

    /** `nfos_dchain_exp_is_index_allocated_t`. */
    method IsIndexAllocated(index: nat) returns (b: bool)
      requires Valid() && index < size
      ensures b <==> IsAllocated(index)
    {
      FreeByListInd(cells[..], n, Count(), layout, index + Shift(n));
      b := cells[index + Shift(n)].listInd != -1;
    }
  }
}
