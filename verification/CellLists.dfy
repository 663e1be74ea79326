/** The circular lists that the index allocators (src/double-chain-exp.c, src/double-chain-impl.c,
    src/concurrent-double-chain-impl.c) thread through one array of cells.

    With `n` cores, the list heads are the cells 0, 8, 16, ..., 16 * n: first a doubly linked ring of
    allocated cells for each core, then a singly linked list of free cells for each core, then the
    global list of free cells.  The cells after that stand for the indexes. */
module CellLists {
  import opened Arithmetic

  datatype Cell = Cell(prev: int, next: int, listInd: int, time: int)

  const MAX_TIME: int := 0x7FFF_FFFF_FFFF_FFFF

  /** The ring of a core's allocated cells, a core's list of free cells, the global list of free cells. */
  datatype List = Ring(core: nat) | Free(core: nat) | Global

  function AllocHead(core: nat): nat { 8 * core }

  function FreeHead(n: nat, core: nat): nat { 8 * n + 8 * core }

  function GlobalHead(n: nat): nat { 16 * n }

  function Shift(n: nat): nat { 16 * n + 1 }

  /** The lists that there are with `n` cores. */
  predicate IsList(n: nat, a: List) {
    a.Global? || a.core < n
  }

  function Head(n: nat, a: List): (h: nat)
    ensures IsList(n, a) ==> h < Shift(n)
  {
    match a
    case Ring(core) => AllocHead(core)
    case Free(core) => FreeHead(n, core)
    case Global => GlobalHead(n)
  }

  /** The `k`-th cell of the circle through head `h` and the cells `s`. */
  function Node(h: int, s: seq<int>, k: nat): int
    requires k <= |s| + 1
  {
    if k == 0 || k == |s| + 1 then h else s[k - 1]
  }

  ghost predicate Link(c: seq<Cell>, h: int, s: seq<int>, ring: bool, k: nat)
    requires k <= |s|
  {
    var x, y := Node(h, s, k), Node(h, s, k + 1);
    && 0 <= x < |c| && 0 <= y < |c|
    && c[x].next == y
    && if ring then c[y].prev == x else c[x].prev == y
  }

  /** The cells `s` form a circle with head `h`: doubly linked, or singly linked with `prev` equal to
      `next`. */
  ghost predicate Circle(c: seq<Cell>, h: int, s: seq<int>, ring: bool) {
    forall k: nat {:trigger Link(c, h, s, ring, k)} :: k <= |s| ==> Link(c, h, s, ring, k)
  }

  predicate NoRepeats(s: seq<int>) {
    forall i, j :: 0 <= i < j < |s| ==> s[i] != s[j]
  }

  // ---- One list

  lemma CircleFrame(c: seq<Cell>, d: seq<Cell>, h: int, s: seq<int>, ring: bool)
    requires Circle(c, h, s, ring) && |d| == |c|
    requires 0 <= h < |c| && d[h] == c[h]
    requires forall x :: x in s ==> 0 <= x < |c| && d[x] == c[x]
    ensures Circle(d, h, s, ring)
  {
    forall k: nat | k <= |s| ensures Link(d, h, s, ring, k) {
      assert Link(c, h, s, ring, k);
    }
  }

  /** The first cell of a free list is taken off: both links of the head now lead to the second one. */
  function PopFree(c: seq<Cell>, h: nat): seq<Cell>
    requires h < |c| && 0 <= c[h].next < |c|
  {
    var second := c[c[h].next].next;
    c[h := c[h].(next := second, prev := second)]
  }

  lemma PopFreeCircle(c: seq<Cell>, h: nat, s: seq<int>)
    requires Circle(c, h, s, false) && s != [] && h < |c| && h !in s && NoRepeats(s)
    ensures c[h].next == s[0] && 0 <= s[0] < |c|
    ensures Circle(PopFree(c, h), h, s[1..], false)
  {
    assert Link(c, h, s, false, 0) && Link(c, h, s, false, 1);
    var d := PopFree(c, h);
    forall k: nat | k <= |s| - 1 ensures Link(d, h, s[1..], false, k) {
      assert Link(c, h, s, false, k + 1);
    }
  }

  lemma EmptyFreeCircle(c: seq<Cell>, h: nat, s: seq<int>, ring: bool)
    requires Circle(c, h, s, ring) && h < |c| && h !in s
    ensures s == [] <==> c[h].next == h
    ensures ring ==> (s == [] <==> c[h].prev == h)
  {
    assert Link(c, h, s, ring, 0) && Link(c, h, s, ring, |s|);
  }

  /** Cell `x` is put on the front of a free list and marked as free. */
  function PushFree(c: seq<Cell>, h: nat, x: nat, time: int): seq<Cell>
    requires h < |c| && x < |c| && x != h
  {
    c[x := Cell(c[h].next, c[h].next, -1, time)][h := c[h].(next := x, prev := x)]
  }

  lemma PushFreeCircle(c: seq<Cell>, h: nat, s: seq<int>, x: nat, time: int)
    requires Circle(c, h, s, false) && h < |c| && x < |c| && x != h && x !in s && h !in s
    ensures Circle(PushFree(c, h, x, time), h, [x] + s, false)
  {
    var d := PushFree(c, h, x, time);
    assert Link(c, h, s, false, 0);
    forall k: nat | k <= |s| + 1 ensures Link(d, h, [x] + s, false, k) {
      if k > 0 {
        assert Link(c, h, s, false, k - 1);
      }
    }
  }

  /** The neighbours of `x` on its ring are linked to each other; the links of `x` itself stay. */
  function Unlink(c: seq<Cell>, x: nat): seq<Cell>
    requires x < |c| && 0 <= c[x].prev < |c| && 0 <= c[x].next < |c|
  {
    var p, q := c[x].prev, c[x].next;
    var d := c[p := c[p].(next := q)];
    d[q := d[q].(prev := p)]
  }

  lemma RingNeighbours(c: seq<Cell>, h: nat, s: seq<int>, k: nat)
    requires Circle(c, h, s, true) && k < |s|
    ensures 0 <= s[k] < |c|
    ensures c[s[k]].prev == Node(h, s, k) && c[s[k]].next == Node(h, s, k + 2)
    ensures 0 <= c[s[k]].prev < |c| && 0 <= c[s[k]].next < |c|
  {
    assert Link(c, h, s, true, k) && Link(c, h, s, true, k + 1);
  }

  lemma UnlinkCircle(c: seq<Cell>, h: nat, s: seq<int>, k: nat)
    requires Circle(c, h, s, true) && h < |c| && h !in s && NoRepeats(s) && k < |s|
    ensures 0 <= s[k] < |c| && 0 <= c[s[k]].prev < |c| && 0 <= c[s[k]].next < |c|
    ensures Circle(Unlink(c, s[k]), h, s[..k] + s[k + 1..], true)
  {
    RingNeighbours(c, h, s, k);
    var d, t := Unlink(c, s[k]), s[..k] + s[k + 1..];
    forall j: nat | j <= |t| ensures Link(d, h, t, true, j) {
      assert Link(c, h, s, true, j);
      if j >= k {
        assert Link(c, h, s, true, j + 1);
      }
    }
  }

  /** Cell `x` is put between the last cell of a ring and its head, and marked as allocated there. */
  function Append(c: seq<Cell>, h: nat, x: nat, time: int): seq<Cell>
    requires h < |c| && x < |c| && 0 <= c[h].prev < |c|
  {
    var p := c[h].prev;
    var d := c[x := Cell(p, h, h, time)];
    var e := d[p := d[p].(next := x)];
    e[h := e[h].(prev := x)]
  }

  lemma AppendCircle(c: seq<Cell>, h: nat, s: seq<int>, x: nat, time: int)
    requires Circle(c, h, s, true) && h < |c| && x < |c| && x != h && x !in s && h !in s && NoRepeats(s)
    ensures 0 <= c[h].prev < |c| && c[h].prev == Node(h, s, |s|)
    ensures Circle(Append(c, h, x, time), h, s + [x], true)
  {
    assert Link(c, h, s, true, |s|);
    var d := Append(c, h, x, time);
    forall k: nat | k <= |s| + 1 ensures Link(d, h, s + [x], true, k) {
      if k <= |s| {
        assert Link(c, h, s, true, k);
      }
    }
  }

  // ---- All lists

  /** The cells of each list, in order, and for each listed cell its list. */
  datatype Layout = Layout(lists: map<List, seq<int>>, home: map<int, List>)

  predicate IsIndexCell(n: nat, count: nat, x: int) {
    Shift(n) <= x < Shift(n) + count
  }

  ghost predicate ListOk(c: seq<Cell>, n: nat, count: nat, l: Layout, a: List)
    requires a in l.lists
  {
    && Circle(c, Head(n, a), l.lists[a], a.Ring?) && NoRepeats(l.lists[a])
    && forall x :: x in l.lists[a] ==>
         && IsIndexCell(n, count, x) && x < |c|
         && x in l.home && l.home[x] == a
         && c[x].listInd == if a.Ring? then Head(n, a) else -1
  }

  ghost predicate HomeOk(l: Layout, x: int) {
    x in l.home && l.home[x] in l.lists && x in l.lists[l.home[x]]
  }

  /** A cell beyond the cores' shares is free, although on no list. */
  ghost predicate RestCell(c: seq<Cell>, y: int) {
    0 <= y < |c| && c[y].listInd == -1
  }

  ghost predicate RestFree(c: seq<Cell>, start: nat) {
    forall y {:trigger RestCell(c, y)} :: start <= y < |c| ==> RestCell(c, y)
  }

  /** Every index cell except `hole` is on exactly one list, all lists are well linked, and `listInd`
      tells allocated cells from free ones. */
  ghost predicate ListsOkBut(c: seq<Cell>, n: nat, count: nat, l: Layout, hole: int) {
    && n > 0 && |c| >= Shift(n) + count && RestFree(c, Shift(n) + count)
    && (forall a {:trigger a in l.lists} {:trigger IsList(n, a)} :: a in l.lists <==> IsList(n, a))
    && (forall a {:trigger ListOk(c, n, count, l, a)} :: a in l.lists ==> ListOk(c, n, count, l, a))
    && (forall x {:trigger HomeOk(l, x)} :: IsIndexCell(n, count, x) && x != hole ==> HomeOk(l, x))
    && (forall x {:trigger x in l.home} :: x in l.home ==> IsIndexCell(n, count, x) && x != hole)
  }

  const NONE: int := -1

  ghost predicate ListsOk(c: seq<Cell>, n: nat, count: nat, l: Layout) {
    ListsOkBut(c, n, count, l, NONE)
  }

  /** `list_ind == -1` exactly on free cells. */
  lemma AllocatedByListInd(c: seq<Cell>, n: nat, count: nat, l: Layout, x: int)
    requires ListsOk(c, n, count, l) && IsIndexCell(n, count, x)
    ensures x in l.home && l.home[x] in l.lists && x in l.lists[l.home[x]]
    ensures c[x].listInd == if l.home[x].Ring? then Head(n, l.home[x]) else -1
  {
    assert HomeOk(l, x);
    assert ListOk(c, n, count, l, l.home[x]);
  }

  lemma RestIsFree(c: seq<Cell>, n: nat, count: nat, l: Layout, x: int)
    requires ListsOk(c, n, count, l) && Shift(n) + count <= x < |c|
    ensures c[x].listInd == -1 && x !in l.home
  {
    assert RestCell(c, x);
  }

  lemma RestStaysFree(c: seq<Cell>, d: seq<Cell>, start: nat)
    requires RestFree(c, start) && |d| == |c|
    requires forall y :: start <= y < |c| ==> d[y].listInd == c[y].listInd
    ensures RestFree(d, start)
  {
    forall y | start <= y < |d| ensures RestCell(d, y) {
      assert RestCell(c, y);
    }
  }

  /** Every index is on exactly one list, and there once. */
  lemma OnExactlyOneList(c: seq<Cell>, n: nat, count: nat, l: Layout, x: int) returns (a: List, k: nat)
    requires ListsOk(c, n, count, l) && IsIndexCell(n, count, x)
    ensures a in l.lists && k < |l.lists[a]| && l.lists[a][k] == x
    ensures forall b, j :: b in l.lists && 0 <= j < |l.lists[b]| && l.lists[b][j] == x ==> b == a && j == k
  {
    AllocatedByListInd(c, n, count, l, x);
    a := l.home[x];
    k :| 0 <= k < |l.lists[a]| && l.lists[a][k] == x;
    assert ListOk(c, n, count, l, a);
    forall b, j | b in l.lists && 0 <= j < |l.lists[b]| && l.lists[b][j] == x ensures b == a && j == k {
      assert ListOk(c, n, count, l, b);
    }
  }

  /** Lists whose cells have not changed are still well linked. */
  lemma OtherListsKeep(c: seq<Cell>, d: seq<Cell>, n: nat, count: nat, l: Layout, m: Layout, a: List, x: int)
    requires a in l.lists && a in m.lists && m.lists[a] == l.lists[a] && ListOk(c, n, count, l, a)
    requires |d| == |c| && Head(n, a) < |c| && d[Head(n, a)] == c[Head(n, a)]
    requires forall y :: y in l.lists[a] ==> y != x && d[y] == c[y]
    requires forall y :: y != x && y in l.home ==> y in m.home && m.home[y] == l.home[y]
    ensures ListOk(d, n, count, m, a)
  {
    CircleFrame(c, d, Head(n, a), l.lists[a], a.Ring?);
  }

  function Taken(l: Layout, a: List, k: nat): Layout
    requires a in l.lists && k < |l.lists[a]|
  {
    var s := l.lists[a];
    Layout(l.lists[a := s[..k] + s[k + 1..]], l.home - {s[k]})
  }

  function Given(l: Layout, a: List, s: seq<int>, x: int): Layout {
    Layout(l.lists[a := s], l.home[x := a])
  }

  lemma TakeFirstFree(c: seq<Cell>, n: nat, count: nat, l: Layout, a: List)
    requires ListsOk(c, n, count, l) && a in l.lists && !a.Ring? && l.lists[a] != []
    ensures Head(n, a) < |c| && c[Head(n, a)].next == l.lists[a][0] && 0 <= l.lists[a][0] < |c|
    ensures ListsOkBut(PopFree(c, Head(n, a)), n, count, Taken(l, a, 0), l.lists[a][0])
  {
    var s, h := l.lists[a], Head(n, a);
    assert ListOk(c, n, count, l, a);
    PopFreeCircle(c, h, s);
    assert s[..0] + s[0 + 1..] == s[1..];
    TakeKeeps(c, PopFree(c, h), n, count, l, a, 0);
  }

  lemma TakeFromRing(c: seq<Cell>, n: nat, count: nat, l: Layout, a: List, k: nat)
    requires ListsOk(c, n, count, l) && a in l.lists && a.Ring? && k < |l.lists[a]|
    ensures var x := l.lists[a][k];
            && 0 <= x < |c| && 0 <= c[x].prev < |c| && 0 <= c[x].next < |c|
            && ListsOkBut(Unlink(c, x), n, count, Taken(l, a, k), x)
  {
    var s, h := l.lists[a], Head(n, a);
    assert ListOk(c, n, count, l, a);
    UnlinkCircle(c, h, s, k);
    RingNeighbours(c, h, s, k);
    var d := Unlink(c, s[k]);
    forall y | 0 <= y < |c| && y != h && y !in s ensures d[y] == c[y] {
    }
    forall y | 0 <= y < |c| ensures d[y].listInd == c[y].listInd {
    }
    TakeKeeps(c, d, n, count, l, a, k);
  }

  /** What both removals have in common: only the cells of one list change, and none of them its
      `listInd`. */
  lemma TakeKeeps(c: seq<Cell>, d: seq<Cell>, n: nat, count: nat, l: Layout, a: List, k: nat)
    requires ListsOk(c, n, count, l) && a in l.lists && k < |l.lists[a]| && |d| == |c|
    requires forall y :: 0 <= y < |c| && y != Head(n, a) && y !in l.lists[a] ==> d[y] == c[y]
    requires forall y :: 0 <= y < |c| ==> d[y].listInd == c[y].listInd
    requires Circle(d, Head(n, a), Taken(l, a, k).lists[a], a.Ring?)
    ensures ListsOkBut(d, n, count, Taken(l, a, k), l.lists[a][k])
  {
    var s, m := l.lists[a], Taken(l, a, k);
    assert ListOk(c, n, count, l, a);
    RemoveAt(s, k);
    RestStaysFree(c, d, Shift(n) + count);
    forall b | b in m.lists ensures ListOk(d, n, count, m, b) {
      assert ListOk(c, n, count, l, b);
      if b != a {
        OtherListsKeep(c, d, n, count, l, m, b, s[k]);
      } else {
        assert forall x :: x in m.lists[a] ==> x in s && x != s[k];
      }
    }
    forall y | IsIndexCell(n, count, y) && y != s[k] ensures HomeOk(m, y) {
      assert HomeOk(l, y);
    }
  }

  lemma RemoveAt(s: seq<int>, k: nat)
    requires NoRepeats(s) && k < |s|
    ensures NoRepeats(s[..k] + s[k + 1..])
    ensures forall y :: y in s[..k] + s[k + 1..] <==> y in s && y != s[k]
  {
    var t := s[..k] + s[k + 1..];
    forall y | y in s && y != s[k] ensures y in t {
      var i :| 0 <= i < |s| && s[i] == y;
      assert t[if i < k then i else i - 1] == y;
    }
  }

  /** Putting the unlisted cell back, at the front of a free list. */
  lemma GiveFree(c: seq<Cell>, n: nat, count: nat, l: Layout, x: int, a: List, time: int)
    requires ListsOkBut(c, n, count, l, x) && IsIndexCell(n, count, x)
    requires a in l.lists && !a.Ring?
    ensures Head(n, a) < |c| && 0 <= x < |c| && x != Head(n, a)
    ensures ListsOk(PushFree(c, Head(n, a), x, time), n, count, Given(l, a, [x] + l.lists[a], x))
  {
    assert ListOk(c, n, count, l, a);
    PushFreeCircle(c, Head(n, a), l.lists[a], x, time);
    GiveKeeps(c, PushFree(c, Head(n, a), x, time), n, count, l, x, a, [x] + l.lists[a]);
  }

  /** Putting the unlisted cell back, at the end of a ring. */
  lemma GiveRing(c: seq<Cell>, n: nat, count: nat, l: Layout, x: int, a: List, time: int)
    requires ListsOkBut(c, n, count, l, x) && IsIndexCell(n, count, x)
    requires a in l.lists && a.Ring?
    ensures Head(n, a) < |c| && 0 <= x < |c| && x != Head(n, a) && 0 <= c[Head(n, a)].prev < |c|
    ensures c[Head(n, a)].prev == Head(n, a) || c[Head(n, a)].prev in l.lists[a]
    ensures ListsOk(Append(c, Head(n, a), x, time), n, count, Given(l, a, l.lists[a] + [x], x))
  {
    var s, h := l.lists[a], Head(n, a);
    assert ListOk(c, n, count, l, a);
    AppendCircle(c, h, s, x, time);
    var d := Append(c, h, x, time);
    forall y | 0 <= y < |c| && y != h && y != x && y !in s ensures d[y] == c[y] {
    }
    GiveKeeps(c, d, n, count, l, x, a, s + [x]);
  }

  lemma GiveKeeps(c: seq<Cell>, d: seq<Cell>, n: nat, count: nat, l: Layout, x: int, a: List, t: seq<int>)
    requires ListsOkBut(c, n, count, l, x) && IsIndexCell(n, count, x) && a in l.lists && |d| == |c|
    requires t == [x] + l.lists[a] || t == l.lists[a] + [x]
    requires forall y :: 0 <= y < |c| && y != Head(n, a) && y != x && y !in l.lists[a] ==> d[y] == c[y]
    requires forall y :: 0 <= y < |c| && y != x ==> d[y].listInd == c[y].listInd
    requires d[x].listInd == if a.Ring? then Head(n, a) else -1
    requires Circle(d, Head(n, a), t, a.Ring?)
    ensures ListsOk(d, n, count, Given(l, a, t, x))
  {
    var m := Given(l, a, t, x);
    assert ListOk(c, n, count, l, a);
    RestStaysFree(c, d, Shift(n) + count);
    forall b | b in m.lists ensures ListOk(d, n, count, m, b) {
      assert ListOk(c, n, count, l, b);
      if b != a {
        OtherListsKeep(c, d, n, count, l, m, b, x);
      }
    }
    forall y | IsIndexCell(n, count, y) ensures HomeOk(m, y) {
      assert y != x ==> HomeOk(l, y);
    }
  }

  // ---- Initialisation

  /** How many indexes the cores' shares of `block` make up. */
  function Usable(n: nat, block: nat): nat {
    Slot(n, 0, block)
  }

  /** All indexes are usable exactly when the number of cores divides the number of indexes. */
  lemma UsableIsAll(size: nat, n: nat)
    requires n > 0
    ensures Usable(n, size / n) <= size
    ensures Usable(n, size / n) == size <==> size % n == 0
  {
    SlotValue(n, 0, size / n);
  }

  /** The cells of core `core`'s share of the indexes. */
  function Share(n: nat, block: nat, core: nat): (s: seq<int>)
    ensures |s| == block
  {
    seq(block, j requires 0 <= j => Shift(n) + Slot(core, j, block))
  }

  /** The core whose share holds the `t`-th index. */
  function ShareOf(t: nat, block: nat): nat
    requires block > 0
  {
    if t < block then 0 else 1 + ShareOf(t - block, block)
  }

  lemma {:induction false} ShareOfSlot(core: nat, j: nat, block: nat)
    requires j < block
    ensures ShareOf(Slot(core, j, block), block) == core
    ensures Slot(core, j, block) == Slot(core, 0, block) + j
  {
    if core > 0 {
      ShareOfSlot(core - 1, j, block);
    }
  }

  lemma {:induction false} SlotOfShare(t: nat, n: nat, block: nat) returns (j: nat)
    requires block > 0 && t < Usable(n, block)
    ensures ShareOf(t, block) < n && j < block && t == Slot(ShareOf(t, block), j, block)
    decreases n
  {
    if t < block {
      j := t;
    } else {
      j := SlotOfShare(t - block, n - 1, block);
    }
  }

  lemma {:induction false} SlotBefore(b: nat, k: nat, b': nat, width: nat)
    requires b < b' && k < width
    ensures Slot(b, k, width) < Slot(b', 0, width)
  {
    if b > 0 {
      SlotBefore(b - 1, k, b' - 1, width);
    }
  }

  ghost function Lists(n: nat): set<List> {
    (set i: nat | i < n :: Ring(i)) + (set i: nat | i < n :: Free(i)) + {Global}
  }

  ghost function InitialLayout(n: nat, block: nat): Layout
    requires n > 0 && block > 0
  {
    Layout(map a | a in Lists(n) :: if a.Free? then Share(n, block, a.core) else [],
           map x {:trigger IsIndexCell(n, Usable(n, block), x)}
             | Shift(n) <= x < Shift(n) + Usable(n, block) && IsIndexCell(n, Usable(n, block), x) ::
             Free(ShareOf(x - Shift(n), block)))
  }

  /** Cell `j` of a core's share is linked to the next one, the last one to the list head. */
  ghost predicate ShareLinked(c: seq<Cell>, n: nat, block: nat, core: nat, j: nat) {
    var x := Shift(n) + Slot(core, j, block);
    && x < |c| && c[x].listInd == -1 && c[x].prev == c[x].next
    && c[x].next == if j + 1 < block then x + 1 else FreeHead(n, core)
  }

  ghost predicate SharesLinked(c: seq<Cell>, n: nat, block: nat, cores: nat) {
    forall core: nat, j: nat {:trigger ShareLinked(c, n, block, core, j)} ::
      core < n && core < cores && j < block ==> ShareLinked(c, n, block, core, j)
  }

  ghost predicate HeadSet(c: seq<Cell>, n: nat, block: nat, a: List)
    requires IsList(n, a)
  {
    var h := Head(n, a);
    && h < |c| && c[h].next == c[h].prev
    && c[h].next == if a.Free? then Shift(n) + Slot(a.core, 0, block) else h
  }

  /** The heads of the rings below core `i` and of the free lists below core `j` are set. */
  ghost predicate HeadsSet(c: seq<Cell>, n: nat, block: nat, i: nat, j: nat) {
    forall a {:trigger HeadSet(c, n, block, a)} ::
      IsList(n, a) && !a.Global? && a.core < (if a.Ring? then i else j) ==> HeadSet(c, n, block, a)
  }

  lemma InitialListsOk(c: seq<Cell>, n: nat, block: nat)
    requires n > 0 && block > 0 && |c| >= Shift(n) + Usable(n, block)
    requires HeadsSet(c, n, block, n, n) && HeadSet(c, n, block, Global) && SharesLinked(c, n, block, n)
    requires RestFree(c, Shift(n) + Usable(n, block))
    ensures ListsOk(c, n, Usable(n, block), InitialLayout(n, block))
  {
    var l, count := InitialLayout(n, block), Usable(n, block);
    forall a | a in l.lists ensures ListOk(c, n, count, l, a) {
      assert HeadSet(c, n, block, a);
      if a.Free? {
        ShareListOk(c, n, block, a.core);
      } else {
        assert Link(c, Head(n, a), [], a.Ring?, 0);
      }
    }
    forall x | IsIndexCell(n, count, x) ensures HomeOk(l, x) {
      InitialHomeOk(n, block, x);
    }
  }

  lemma InitialHomeOk(n: nat, block: nat, x: int)
    requires n > 0 && block > 0 && IsIndexCell(n, Usable(n, block), x)
    ensures HomeOk(InitialLayout(n, block), x)
  {
    var l, t := InitialLayout(n, block), x - Shift(n);
    var j := SlotOfShare(t, n, block);
    var core := ShareOf(t, block);
    assert x in l.home && l.home[x] == Free(core);
    assert Free(core) in Lists(n) && l.lists[Free(core)] == Share(n, block, core);
    assert x == Share(n, block, core)[j];
  }

  lemma ShareListOk(c: seq<Cell>, n: nat, block: nat, core: nat)
    requires n > 0 && block > 0 && |c| >= Shift(n) + Usable(n, block) && core < n
    requires HeadSet(c, n, block, Free(core)) && SharesLinked(c, n, block, n)
    ensures Free(core) in InitialLayout(n, block).lists
    ensures ListOk(c, n, Usable(n, block), InitialLayout(n, block), Free(core))
  {
    var l, h, s := InitialLayout(n, block), FreeHead(n, core), Share(n, block, core);
    assert Free(core) in Lists(n) && l.lists[Free(core)] == s;
    forall j: nat | j < block
      ensures s[j] == Shift(n) + Slot(core, 0, block) + j < |c| && c[s[j]].listInd == -1
      ensures IsIndexCell(n, Usable(n, block), s[j]) && s[j] in l.home && l.home[s[j]] == Free(core)
    {
      assert ShareLinked(c, n, block, core, j);
      ShareOfSlot(core, j, block);
      SlotBefore(core, j, n, block);
    }
    ShareCircle(c, n, block, core);
  }

  lemma ShareCircle(c: seq<Cell>, n: nat, block: nat, core: nat)
    requires block > 0 && |c| >= Shift(n) + Usable(n, block) && core < n
    requires HeadSet(c, n, block, Free(core)) && SharesLinked(c, n, block, n)
    ensures Circle(c, FreeHead(n, core), Share(n, block, core), false)
  {
    forall k: nat | k <= block ensures Link(c, FreeHead(n, core), Share(n, block, core), false, k) {
      if k > 0 {
        assert ShareLinked(c, n, block, core, k - 1);
        ShareOfSlot(core, k - 1, block);
      }
      if k < block {
        assert ShareLinked(c, n, block, core, k);
        ShareOfSlot(core, k, block);
      }
    }
  }

  /** The list initialisation of the allocators.  A core's share is `size / n` indexes, so the last
      `size % n` indexes are on no list. */
  method InitLists(cells: array<Cell>, size: nat, n: nat)
    requires 0 < n <= size && cells.Length == Shift(n) + size
    modifies cells
    ensures ListsOk(cells[..], n, Usable(n, size / n), InitialLayout(n, size / n))
  {
    var block := size / n;
    UsableIsAll(size, n);
    InitHeads(cells, n, block);
    var i, coreId := Shift(n), 0;
    while i < size + Shift(n)
      invariant i == Shift(n) + Slot(coreId, 0, block) && coreId >= 0
      invariant HeadsSet(cells[..], n, block, n, n) && HeadSet(cells[..], n, block, Global)
      invariant SharesLinked(cells[..], n, block, coreId)
      invariant forall x :: Shift(n) <= x < i && x < size + Shift(n) ==> cells[x].listInd == -1
      decreases size + Shift(n) - i
    {
      ghost var before := cells[..];
      if coreId < n {
        SlotBefore(coreId, block - 1, n, block);
        ShareOfSlot(coreId, block - 1, block);
      }
      InitShare(cells, size, n, block, i, coreId);
      EarlierKeep(before, cells[..], n, block, coreId);
      i := i + block;
      coreId := coreId + 1;
    }
    if coreId < n {
      SlotBefore(coreId, 0, n, block);
    }
    forall y | Shift(n) + Usable(n, block) <= y < cells.Length ensures RestCell(cells[..], y) {
    }
    InitialListsOk(cells[..], n, block);
  }

  lemma EarlierKeep(c: seq<Cell>, d: seq<Cell>, n: nat, block: nat, coreId: nat)
    requires HeadsSet(c, n, block, n, n) && HeadSet(c, n, block, Global)
    requires SharesLinked(c, n, block, coreId) && |d| == |c|
    requires Shift(n) + Slot(coreId, 0, block) <= |c|
    requires forall x :: 0 <= x < Shift(n) + Slot(coreId, 0, block) ==> d[x] == c[x]
    requires coreId < n ==> forall j: nat {:trigger ShareLinked(d, n, block, coreId, j)} ::
               j < block ==> ShareLinked(d, n, block, coreId, j)
    ensures HeadsSet(d, n, block, n, n) && HeadSet(d, n, block, Global)
    ensures SharesLinked(d, n, block, coreId + 1)
  {
    forall a | IsList(n, a) ensures HeadSet(d, n, block, a) {
      assert HeadSet(c, n, block, a);
    }
    forall core: nat, j: nat | core < n && core < coreId && j < block
      ensures ShareLinked(d, n, block, core, j)
    {
      assert ShareLinked(c, n, block, core, j);
      SlotBefore(core, j, coreId, block);
    }
  }

  /** The loops over the list heads. */
  method InitHeads(cells: array<Cell>, n: nat, block: nat)
    requires n > 0 && cells.Length >= Shift(n)
    modifies cells
    ensures HeadsSet(cells[..], n, block, n, n) && HeadSet(cells[..], n, block, Global)
  {
    var i := AllocHead(0);
    ghost var ring := 0;
    while i < FreeHead(n, 0)
      invariant 0 <= ring <= n && i == AllocHead(ring) && HeadsSet(cells[..], n, block, ring, 0)
    {
      ghost var before := cells[..];
      cells[i] := Cell(i, i, i, MAX_TIME);
      HeadsKeep(before, cells[..], n, block, ring, 0, Ring(ring));
      i := i + 8;
      ring := ring + 1;
    }
    i := FreeHead(n, 0);
    ghost var free := 0;
    while i < GlobalHead(n)
      invariant 0 <= free <= n && i == FreeHead(n, free) && HeadsSet(cells[..], n, block, n, free)
    {
      ghost var before := cells[..];
      var core := (i - FreeHead(n, 0)) / 8;
      SlotValue(core, 0, block);
      var first := Shift(n) + core * block;
      cells[i] := Cell(first, first, i - FreeHead(n, 0), MAX_TIME);
      HeadsKeep(before, cells[..], n, block, n, free, Free(free));
      i := i + 8;
      free := free + 1;
    }
    ghost var before := cells[..];
    cells[GlobalHead(n)] := Cell(GlobalHead(n), GlobalHead(n), -1, MAX_TIME);
    HeadsKeep(before, cells[..], n, block, n, n, Global);
  }

  lemma HeadsKeep(c: seq<Cell>, d: seq<Cell>, n: nat, block: nat, i: nat, j: nat, b: List)
    requires i <= n && j <= n && IsList(n, b) && HeadsSet(c, n, block, i, j) && HeadSet(d, n, block, b)
    requires Head(n, b) < |c| && |d| == |c| && d == c[Head(n, b) := d[Head(n, b)]]
    requires b.Ring? ==> b.core == i
    requires b.Free? ==> b.core == j
    ensures HeadsSet(d, n, block, if b.Ring? then i + 1 else i, if b.Free? then j + 1 else j)
  {
    forall a | IsList(n, a) && a != b && HeadSet(c, n, block, a) ensures HeadSet(d, n, block, a) {
    }
    forall a | IsList(n, a) && !a.Global? && a.core < (if a.Ring? then i else j)
      ensures HeadSet(d, n, block, a)
    {
      assert HeadSet(c, n, block, a);
    }
  }

  /** One iteration of the loop that partitions the indexes among the free lists. */
  method InitShare(cells: array<Cell>, size: nat, n: nat, block: nat, i: nat, coreId: nat)
    requires 0 < block && cells.Length == Shift(n) + size
    requires i == Shift(n) + Slot(coreId, 0, block) < size + Shift(n)
    requires coreId < n ==> i + block <= size + Shift(n)
    modifies cells
    ensures forall x :: 0 <= x < i ==> cells[x] == old(cells[x])
    ensures forall x :: i <= x < i + block && x < size + Shift(n) ==> cells[x].listInd == -1
    ensures coreId < n ==> forall j: nat {:trigger ShareLinked(cells[..], n, block, coreId, j)} ::
              j < block ==> ShareLinked(cells[..], n, block, coreId, j)
  {
    var j := 0;
    while j < block - 1 && i + j < size + Shift(n) - 1
      invariant 0 <= j <= block - 1 && i + j <= size + Shift(n) - 1
      invariant forall x :: 0 <= x < i ==> cells[x] == old(cells[x])
      invariant forall x :: i <= x < i + j ==> cells[x] == Cell(x + 1, x + 1, -1, MAX_TIME)
    {
      cells[i + j] := Cell(i + j + 1, i + j + 1, -1, MAX_TIME);
      j := j + 1;
    }
    var head := FreeHead(n, coreId);
    cells[i + j] := Cell(head, head, -1, MAX_TIME);
    if coreId < n {
      forall k: nat | k < block ensures ShareLinked(cells[..], n, block, coreId, k) {
        ShareOfSlot(coreId, k, block);
      }
    }
  }
}
