/** The load balancer's partition mover (deps/vigor/nf-lb/lb_algo.c).

    Partitions with their loads are spread over cores; each core keeps its partitions with positive
    load in a search tree.  The algorithm moves partitions from overloaded to underloaded cores and
    remembers the best mapping that it has met. */
module Rebalancer {
  import opened Bst
  import opened Counting
  import G = GreedyEpoch

  const INT32_MAX: int := 0x7FFF_FFFF

  const LB_MAX_NUM_ITER: int := 10

  // ---- Loads of a mapping

  /** The load that the first `k` partitions put on core `c`. */
  function LoadUpTo(m: seq<nat>, w: seq<int>, c: nat, k: nat): int
    requires k <= |m| == |w|
  {
    if k == 0 then 0 else LoadUpTo(m, w, c, k - 1) + if m[k - 1] == c then w[k - 1] else 0
  }

  function LoadOf(m: seq<nat>, w: seq<int>, c: nat): int
    requires |m| == |w|
  {
    LoadUpTo(m, w, c, |m|)
  }

  predicate NonNegative(w: seq<int>) {
    forall i :: 0 <= i < |w| ==> w[i] >= 0
  }

  /** The load of the heaviest of the first `n` cores. */
  function MaxLoad(m: seq<nat>, w: seq<int>, n: nat): int
    requires |m| == |w| && n > 0
  {
    if n == 1 || LoadOf(m, w, n - 1) > MaxLoad(m, w, n - 1) then LoadOf(m, w, n - 1)
    else MaxLoad(m, w, n - 1)
  }

  function Total(w: seq<int>, k: nat): int
    requires k <= |w|
  {
    if k == 0 then 0 else Total(w, k - 1) + w[k - 1]
  }

  function SumOfLoads(m: seq<nat>, w: seq<int>, n: nat, k: nat): int
    requires k <= |m| == |w|
  {
    if n == 0 then 0 else SumOfLoads(m, w, n - 1, k) + LoadUpTo(m, w, n - 1, k)
  }

  lemma {:induction false} AddToSum(m: seq<nat>, w: seq<int>, n: nat, k: nat)
    requires 0 < k <= |m| == |w|
    ensures SumOfLoads(m, w, n, k) == SumOfLoads(m, w, n, k - 1) + if m[k - 1] < n then w[k - 1] else 0
  {
    if n > 0 {
      AddToSum(m, w, n - 1, k);
    }
  }

  /** Whatever the mapping, the cores together carry the total load. */
  lemma {:induction false} LoadIsConserved(m: seq<nat>, w: seq<int>, n: nat, k: nat)
    requires k <= |m| == |w| && forall i :: 0 <= i < |m| ==> m[i] < n
    ensures SumOfLoads(m, w, n, k) == Total(w, k)
  {
    if k > 0 {
      AddToSum(m, w, n, k);
      LoadIsConserved(m, w, n, k - 1);
    } else {
      NothingOnCores(m, w, n);
    }
  }

  lemma {:induction false} NothingOnCores(m: seq<nat>, w: seq<int>, n: nat)
    requires |m| == |w|
    ensures SumOfLoads(m, w, n, 0) == 0
  {
    if n > 0 {
      NothingOnCores(m, w, n - 1);
    }
  }

  lemma {:induction false} LoadNonNegative(m: seq<nat>, w: seq<int>, c: nat, k: nat)
    requires k <= |m| == |w| && NonNegative(w)
    ensures 0 <= LoadUpTo(m, w, c, k) <= Total(w, k)
  {
    if k > 0 {
      LoadNonNegative(m, w, c, k - 1);
    }
  }

  /** A loaded core has a partition with positive load. */
  lemma {:induction false} LoadedHasPartition(m: seq<nat>, w: seq<int>, c: nat, k: nat) returns (i: nat)
    requires k <= |m| == |w| && LoadUpTo(m, w, c, k) > 0
    ensures i < k && m[i] == c && w[i] > 0
  {
    if m[k - 1] == c && w[k - 1] > 0 {
      i := k - 1;
    } else {
      i := LoadedHasPartition(m, w, c, k - 1);
    }
  }

  lemma {:induction false} MoveChangesLoad(m: seq<nat>, w: seq<int>, c: nat, x: nat, d: nat, k: nat)
    requires k <= |m| == |w| && x < |m|
    ensures LoadUpTo(m[x := d], w, c, k) ==
            LoadUpTo(m, w, c, k) - (if x < k && m[x] == c then w[x] else 0)
                                 + (if x < k && d == c then w[x] else 0)
  {
    if k > 0 {
      MoveChangesLoad(m, w, c, x, d, k - 1);
    }
  }

  lemma {:induction false} MaxLoadIs(m: seq<nat>, w: seq<int>, n: nat, v: int)
    requires |m| == |w| && n > 0
    requires forall c: nat :: c < n ==> LoadOf(m, w, c) <= v
    ensures MaxLoad(m, w, n) <= v
    ensures (exists c: nat :: c < n && LoadOf(m, w, c) == v) ==> MaxLoad(m, w, n) == v
  {
    if n > 1 {
      MaxLoadIs(m, w, n - 1, v);
    }
  }

  // ---- Trees, roots and loads of the cores agree with the mapping

  function Mapping(p: seq<Partition>): (m: seq<nat>)
    ensures |m| == |p|
  {
    seq(|p|, i requires 0 <= i < |p| => p[i].core)
  }

  /** The core's tree holds its partitions with positive load. */
  ghost predicate TreeOk(m: seq<nat>, p: seq<Partition>, core: Core, w: seq<int>, t: Tree)
    requires |m| == |w|
  {
    && Rooted(p, core.root, t, w)
    && forall i: nat {:trigger i in Members(t)} :: i in Members(t) <==> i < |m| && m[i] == core.ind && w[i] > 0
  }

  predicate OnCores(m: seq<nat>, n: nat) {
    forall i :: 0 <= i < |m| ==> m[i] < n
  }

  ghost predicate CoreOk(m: seq<nat>, p: seq<Partition>, core: Core, w: seq<int>, t: Tree)
    requires |m| == |w|
  {
    TreeOk(m, p, core, w, t) && core.load == LoadOf(m, w, core.ind)
  }

  predicate Apart(cores: seq<Core>) {
    forall q, r :: 0 <= q < r < |cores| ==> cores[q].ind != cores[r].ind
  }

  /** The cores, in some order, carry what the mapping says.  A partition mapped to `|cores|` is being
      moved. */
  ghost predicate Spread(m: seq<nat>, p: seq<Partition>, cores: seq<Core>, w: seq<int>, trees: seq<Tree>) {
    && HasLoads(p, w) && NonNegative(w) && |m| == |p| && |trees| == |cores|
    && Apart(cores)
    && (forall q :: 0 <= q < |cores| ==> cores[q].ind < |cores|)
    && (forall q {:trigger cores[q]} :: 0 <= q < |cores| ==> CoreOk(m, p, cores[q], w, trees[cores[q].ind]))
  }

  /** Only the tree of core `k` changes, by partition `x`, which goes from or to core `k`. */
  lemma OthersKeep(m: seq<nat>, p: seq<Partition>, cores: seq<Core>, w: seq<int>, trees: seq<Tree>,
                   q: seq<Partition>, k: nat, x: nat, d: nat, s: set<nat>, j: nat)
    requires Spread(m, p, cores, w, trees) && k < |cores| && j < |cores| && j != k && x < |m|
    requires OnlyLinks(p, q, s) && forall i :: i in s ==> i == x || (i < |m| && m[i] == cores[k].ind)
    requires m[x] != cores[j].ind && d != cores[j].ind
    ensures CoreOk(m[x := d], q, cores[j], w, trees[cores[j].ind])
  {
    var t := trees[cores[j].ind];
    assert CoreOk(m, p, cores[j], w, t);
    forall i | i in Members(t) ensures SameLinks(p, q, i) {
    }
    TreeFrame(p, q, cores[j].root, t);
    MoveChangesLoad(m, w, cores[j].ind, x, d, |m|);
  }

  lemma TakeOk(m: seq<nat>, p: seq<Partition>, cores: seq<Core>, w: seq<int>, trees: seq<Tree>,
               q: seq<Partition>, cores': seq<Core>, k: nat, x: nat)
    requires Spread(m, p, cores, w, trees) && k < |cores| && x < |m| && m[x] == cores[k].ind && w[x] > 0
    requires |cores'| == |cores|
    requires cores' == cores[k := Core(cores[k].load - w[x], cores'[k].root, cores[k].ind)]
    requires forall i :: i in Members(trees[cores[k].ind]) ==> i < |w|
    requires OnlyLinks(p, q, Members(trees[cores[k].ind]))
    requires Rooted(q, cores'[k].root, Deleted(trees[cores[k].ind], x, w), w)
    ensures var t := Deleted(trees[cores[k].ind], x, w);
            Spread(m[x := |cores|], q, cores', w, trees[cores[k].ind := t])
  {
    var c := cores[k].ind;
    assert CoreOk(m, p, cores[k], w, trees[c]);
    DeletedIsOrdered(trees[c], x, w);
    MoveChangesLoad(m, w, c, x, |cores|, |m|);
    forall j | 0 <= j < |cores'| ensures
      CoreOk(m[x := |cores|], q, cores'[j], w, trees[c := Deleted(trees[c], x, w)][cores'[j].ind])
    {
      if j != k {
        OthersKeep(m, p, cores, w, trees, q, k, x, |cores|, Members(trees[c]), j);
      }
    }
  }

  lemma GiveOk(m: seq<nat>, p: seq<Partition>, cores: seq<Core>, w: seq<int>, trees: seq<Tree>,
               q: seq<Partition>, cores': seq<Core>, k: nat, x: nat, t: Tree)
    requires Spread(m, p, cores, w, trees) && k < |cores| && x < |m| && m[x] == |cores|
    requires |cores'| == |cores|
    requires cores' == cores[k := Core(cores[k].load + w[x], cores'[k].root, cores[k].ind)]
    requires forall i :: i in Members(trees[cores[k].ind]) ==> i < |w|
    requires t == if w[x] <= 0 then trees[cores[k].ind] else Inserted(trees[cores[k].ind], x, w)
    requires OnlyLinks(p, q, Members(trees[cores[k].ind]) + {x})
    requires Rooted(q, cores'[k].root, t, w)
    ensures Spread(m[x := cores[k].ind], q, cores', w, trees[cores[k].ind := t])
  {
    var c := cores[k].ind;
    assert CoreOk(m, p, cores[k], w, trees[c]);
    if w[x] > 0 {
      InsertedIsOrdered(trees[c], x, w);
    }
    MoveChangesLoad(m, w, c, x, c, |m|);
    forall j | 0 <= j < |cores'| ensures CoreOk(m[x := c], q, cores'[j], w, trees[c := t][cores'[j].ind]) {
      if j != k {
        OthersKeep(m, p, cores, w, trees, q, k, x, c, Members(trees[c]) + {x}, j);
      }
    }
  }

  // ---- Sorting the cores

  predicate Ascending(cores: seq<Core>) {
    forall q, r :: 0 <= q < r < |cores| ==> cores[q].load <= cores[r].load
  }

  /** The same cores in some order. */
  ghost predicate Reordered(cores: seq<Core>, cores': seq<Core>, order: seq<int>) {
    && |cores'| == |cores| == |order| && Below(order, |cores|) && Distinct(order)
    && forall q :: 0 <= q < |cores| ==> cores'[q] == cores[order[q]]
  }

  lemma SwapReordered(cores: seq<Core>, now: seq<Core>, order: seq<int>, i: nat, j: nat)
    requires Reordered(cores, now, order) && i < |now| && j < |now|
    ensures Reordered(cores, now[i := now[j]][j := now[i]], order[i := order[j]][j := order[i]])
  {
  }

  /** The first `i` cores are in order, and none of the others is lighter. */
  predicate AscendingUpTo(cores: seq<Core>, i: nat) {
    forall q, r :: 0 <= q < i && q < r < |cores| ==> cores[q].load <= cores[r].load
  }

  lemma SwapAscends(cores: seq<Core>, i: nat, min: nat)
    requires AscendingUpTo(cores, i) && i <= min < |cores|
    requires forall r :: i <= r < |cores| ==> cores[min].load <= cores[r].load
    ensures AscendingUpTo(cores[i := cores[min]][min := cores[i]], i + 1)
  {
  }

  /** Stands for `qsort` with `cores_compar`. */
  method SortCores(cores: array<Core>) returns (ghost order: seq<int>)
    modifies cores
    ensures Ascending(cores[..]) && Reordered(old(cores[..]), cores[..], order)
  {
    order := seq(cores.Length, q => q);
    for i := 0 to cores.Length
      invariant Reordered(old(cores[..]), cores[..], order)
      invariant AscendingUpTo(cores[..], i)
    {
      var min := Lightest(cores, i);
      SwapReordered(old(cores[..]), cores[..], order, i, min);
      SwapAscends(cores[..], i, min);
      Swap(cores, i, min);
      order := order[i := order[min]][min := order[i]];
    }
  }

  method Lightest(cores: array<Core>, i: nat) returns (min: nat)
    requires i < cores.Length
    ensures i <= min < cores.Length
    ensures forall r :: i <= r < cores.Length ==> cores[min].load <= cores[r].load
  {
    min := i;
    for j := i + 1 to cores.Length
      invariant i <= min < cores.Length
      invariant forall r :: i <= r < j ==> cores[min].load <= cores[r].load
    {
      if cores[j].load < cores[min].load {
        min := j;
      }
    }
  }

  method Swap(cores: array<Core>, i: nat, j: nat)
    requires i < cores.Length && j < cores.Length
    modifies cores
    ensures cores[..] == old(cores[..])[i := old(cores[j])][j := old(cores[i])]
  {
    cores[i], cores[j] := cores[j], cores[i];
  }

  lemma ReorderedSpread(m: seq<nat>, p: seq<Partition>, cores: seq<Core>, cores': seq<Core>, order: seq<int>,
                        w: seq<int>, trees: seq<Tree>)
    requires Spread(m, p, cores, w, trees) && Reordered(cores, cores', order)
    ensures Spread(m, p, cores', w, trees)
  {
    forall q, r | 0 <= q < r < |cores'| ensures cores'[q].ind != cores'[r].ind {
      assert order[q] != order[r];
    }
    forall q | 0 <= q < |cores'| ensures CoreOk(m, p, cores'[q], w, trees[cores'[q].ind]) {
      assert cores'[q] == cores[order[q]];
    }
  }

  /** After sorting, the last core is the heaviest. */
  lemma LastIsHeaviest(m: seq<nat>, p: seq<Partition>, cores: seq<Core>, w: seq<int>, trees: seq<Tree>)
    requires Spread(m, p, cores, w, trees) && Ascending(cores) && cores != []
    ensures cores[|cores| - 1].load == MaxLoad(m, w, |cores|)
  {
    var n := |cores|;
    var inds := seq(n, q requires 0 <= q < n => cores[q].ind);
    Pigeonhole(inds, n);
    forall c: nat | c < n ensures LoadOf(m, w, c) <= cores[n - 1].load {
      assert c in inds;
      var q :| 0 <= q < n && inds[q] == c;
      assert CoreOk(m, p, cores[q], w, trees[cores[q].ind]);
    }
    assert CoreOk(m, p, cores[n - 1], w, trees[cores[n - 1].ind]);
    MaxLoadIs(m, w, n, cores[n - 1].load);
  }

  // ---- The algorithm

  /** Load `v` has gone from core `ol` to core `ul`. */
  ghost predicate Moved(c: seq<Core>, d: seq<Core>, ol: nat, ul: nat, v: int) {
    && |d| == |c|
    && forall q :: 0 <= q < |c| ==>
         && d[q].ind == c[q].ind
         && d[q].load == c[q].load - (if q == ol then v else 0) + if q == ul then v else 0
  }

  /** The body of the inner loop that moves partition `x` from core `ol` to core `ul`. */
  method MovePartition(partitions: array<Partition>, cores: array<Core>, ol: nat, ul: nat, x: nat,
                       ghost w: seq<int>, ghost trees: seq<Tree>)
    returns (ghost trees': seq<Tree>)
    requires ol < cores.Length && ul < cores.Length && x < partitions.Length
    requires Spread(Mapping(partitions[..]), partitions[..], cores[..], w, trees)
    requires x in Members(trees[cores[ol].ind])
    modifies partitions, cores
    ensures Spread(Mapping(partitions[..]), partitions[..], cores[..], w, trees')
    ensures Moved(old(cores[..]), cores[..], ol, ul, w[x]) && w[x] > 0
    ensures Mapping(partitions[..]) == old(Mapping(partitions[..]))[x := old(cores[ul].ind)]
  {
    ghost var m: seq<nat> := Mapping(partitions[..]);
    ghost var moving: seq<nat> := m[x := cores.Length];
    assert CoreOk(m, partitions[..], cores[ol], w, trees[cores[ol].ind]);
    trees' := Take(partitions, cores, ol, x, w, trees);
    trees' := Give(partitions, cores, ul, x, moving, w, trees');
    assert Mapping(partitions[..]) == moving[x := cores[ul].ind];
  }

  /** Remove partition `x` from core `ol`. */
  method Take(partitions: array<Partition>, cores: array<Core>, ol: nat, x: nat, ghost w: seq<int>,
              ghost trees: seq<Tree>)
    returns (ghost trees': seq<Tree>)
    requires ol < cores.Length && x < partitions.Length
    requires Spread(Mapping(partitions[..]), partitions[..], cores[..], w, trees)
    requires partitions[x].core == cores[ol].ind && w[x] > 0
    modifies partitions, cores
    ensures Spread(old(Mapping(partitions[..]))[x := cores.Length], partitions[..], cores[..], w, trees')
    ensures Mapping(partitions[..]) == old(Mapping(partitions[..]))
    ensures cores[..] == old(cores[..])[ol := Core(old(cores[ol]).load - w[x], cores[ol].root, old(cores[ol]).ind)]
  {
    ghost var m, p, c, t := Mapping(partitions[..]), partitions[..], cores[..], trees[cores[ol].ind];
    assert CoreOk(m, p, c[ol], w, t);
    var r := Delete(partitions, cores, ol, x, t, w);
    cores[ol] := cores[ol].(load := cores[ol].load - partitions[x].load);
    TakeOk(m, p, c, w, trees, partitions[..], cores[..], ol, x);
    trees' := trees[c[ol].ind := Deleted(t, x, w)];
  }

  /** Add partition `x` to core `ul`. */
  method Give(partitions: array<Partition>, cores: array<Core>, ul: nat, x: nat, ghost m: seq<nat>,
              ghost w: seq<int>, ghost trees: seq<Tree>)
    returns (ghost trees': seq<Tree>)
    requires ul < cores.Length && x < partitions.Length == |m| && m[x] == cores.Length
    requires Spread(m, partitions[..], cores[..], w, trees) && w[x] > 0
    modifies partitions, cores
    ensures Spread(m[x := old(cores[ul].ind)], partitions[..], cores[..], w, trees')
    ensures Mapping(partitions[..]) == old(Mapping(partitions[..]))[x := old(cores[ul].ind)]
    ensures cores[..] == old(cores[..])[ul := Core(old(cores[ul]).load + w[x], cores[ul].root, old(cores[ul]).ind)]
  {
    ghost var p, c, t := partitions[..], cores[..], trees[cores[ul].ind];
    partitions[x] := partitions[x].(core := cores[ul].ind);
    CoreFieldOnly(m, p, partitions[..], c, w, trees);
    ghost var q := partitions[..];
    assert CoreOk(m, q, c[ul], w, t);
    Insert(partitions, cores, ul, x, t, w);
    cores[ul] := cores[ul].(load := cores[ul].load + partitions[x].load);
    GiveOk(m, q, c, w, trees, partitions[..], cores[..], ul, x, Inserted(t, x, w));
    trees' := trees[c[ul].ind := Inserted(t, x, w)];
  }

  /** The mapping recorded in the partitions plays no role in their trees. */
  lemma CoreFieldOnly(m: seq<nat>, p: seq<Partition>, q: seq<Partition>, cores: seq<Core>, w: seq<int>,
                      trees: seq<Tree>)
    requires Spread(m, p, cores, w, trees) && |q| == |p|
    requires forall i :: 0 <= i < |p| ==> q[i] == p[i].(core := q[i].core)
    ensures Spread(m, q, cores, w, trees)
  {
    forall j | 0 <= j < |cores| ensures CoreOk(m, q, cores[j], w, trees[cores[j].ind]) {
      assert CoreOk(m, p, cores[j], w, trees[cores[j].ind]);
      TreeFrame(p, q, cores[j].root, trees[cores[j].ind]);
    }
  }

  // ---- Populating the trees

  /** The mapping of the first `k` partitions; the others are on no core yet. */
  function FirstOf(m: seq<nat>, k: nat, none: nat): (r: seq<nat>)
    ensures |r| == |m|
  {
    seq(|m|, i requires 0 <= i < |m| => if i < k then m[i] else none)
  }

  ghost predicate Planted(m: seq<nat>, p: seq<Partition>, cores: seq<Core>, w: seq<int>, trees: seq<Tree>) {
    && HasLoads(p, w) && |m| == |p| && |trees| == |cores|
    && (forall q :: 0 <= q < |cores| ==> cores[q].ind == q)
    && forall q {:trigger cores[q]} :: 0 <= q < |cores| ==> TreeOk(m, p, cores[q], w, trees[q])
  }

  lemma PlantedElsewhere(m: seq<nat>, p: seq<Partition>, cores: seq<Core>, w: seq<int>, trees: seq<Tree>,
                         q: seq<Partition>, x: nat, k: nat, j: nat)
    requires x < |m| && m[x] == k < |cores| && Planted(FirstOf(m, x, |cores|), p, cores, w, trees)
    requires j < |cores| && j != k && OnlyLinks(p, q, Members(trees[k]) + {x})
    ensures TreeOk(FirstOf(m, x + 1, |cores|), q, cores[j], w, trees[j])
  {
    var m0 := FirstOf(m, x, |cores|);
    assert TreeOk(m0, p, cores[k], w, trees[k]) && TreeOk(m0, p, cores[j], w, trees[j]);
    TreeFrame(p, q, cores[j].root, trees[j]);
  }

  lemma PlantOk(m: seq<nat>, p: seq<Partition>, cores: seq<Core>, w: seq<int>, trees: seq<Tree>,
                q: seq<Partition>, cores': seq<Core>, x: nat, k: nat, t: Tree)
    requires x < |m| && m[x] == k < |cores| && Planted(FirstOf(m, x, |cores|), p, cores, w, trees)
    requires |cores'| == |cores| && cores' == cores[k := cores[k].(root := cores'[k].root)]
    requires forall i :: i in Members(trees[k]) ==> i < |w|
    requires t == if w[x] <= 0 then trees[k] else Inserted(trees[k], x, w)
    requires OnlyLinks(p, q, Members(trees[k]) + {x})
    requires Rooted(q, cores'[k].root, t, w)
    ensures Planted(FirstOf(m, x + 1, |cores|), q, cores', w, trees[k := t])
  {
    var m0, m1 := FirstOf(m, x, |cores|), FirstOf(m, x + 1, |cores|);
    assert TreeOk(m0, p, cores[k], w, trees[k]);
    if w[x] > 0 {
      InsertedIsOrdered(trees[k], x, w);
    }
    forall j | 0 <= j < |cores'| ensures TreeOk(m1, q, cores'[j], w, trees[k := t][j]) {
      if j != k {
        PlantedElsewhere(m, p, cores, w, trees, q, x, k, j);
      }
    }
  }

  method ClearRoots(cores: array<Core>)
    modifies cores
    ensures forall q :: 0 <= q < cores.Length ==> cores[q] == old(cores[q]).(root := -1)
  {
    for i := 0 to cores.Length
      invariant forall q :: 0 <= q < cores.Length ==>
                  cores[q] == if q < i then old(cores[q]).(root := -1) else old(cores[q])
    {
      cores[i] := cores[i].(root := -1);
    }
  }

  /** Insert partition `i` into the tree of its core. */
  method Plant(partitions: array<Partition>, cores: array<Core>, i: nat, ghost w: seq<int>, ghost trees: seq<Tree>)
    returns (ghost trees': seq<Tree>)
    requires OnCores(Mapping(partitions[..]), cores.Length) && i < partitions.Length
    requires Planted(FirstOf(Mapping(partitions[..]), i, cores.Length), partitions[..], cores[..], w, trees)
    modifies partitions, cores
    ensures Mapping(partitions[..]) == old(Mapping(partitions[..]))
    ensures forall q :: 0 <= q < cores.Length ==> cores[q] == old(cores[q]).(root := cores[q].root)
    ensures Planted(FirstOf(Mapping(partitions[..]), i + 1, cores.Length), partitions[..], cores[..], w, trees')
  {
    ghost var m, p, c := Mapping(partitions[..]), partitions[..], cores[..];
    var k := partitions[i].core;
    assert m[i] == k;
    assert TreeOk(FirstOf(m, i, |c|), p, c[k], w, trees[k]);
    Insert(partitions, cores, k, i, trees[k], w);
    ghost var t := if w[i] <= 0 then trees[k] else Inserted(trees[k], i, w);
    PlantOk(m, p, c, w, trees, partitions[..], cores[..], i, k, t);
    trees' := trees[k := t];
  }

  method PopulateTrees(partitions: array<Partition>, cores: array<Core>, ghost w: seq<int>)
    returns (ghost trees: seq<Tree>)
    requires HasLoads(partitions[..], w) && NonNegative(w)
    requires OnCores(Mapping(partitions[..]), cores.Length)
    requires forall q :: 0 <= q < cores.Length ==>
               cores[q].ind == q && cores[q].load == LoadOf(Mapping(partitions[..]), w, q)
    modifies partitions, cores
    ensures Mapping(partitions[..]) == old(Mapping(partitions[..]))
    ensures forall q :: 0 <= q < cores.Length ==> cores[q] == old(cores[q]).(root := cores[q].root)
    ensures Spread(Mapping(partitions[..]), partitions[..], cores[..], w, trees)
  {
    ghost var m, n := Mapping(partitions[..]), cores.Length;
    ClearRoots(cores);
    trees := seq(n, q => Leaf);
    for i := 0 to partitions.Length
      invariant forall q :: 0 <= q < n ==> cores[q] == old(cores[q]).(root := cores[q].root)
      invariant Mapping(partitions[..]) == m
      invariant Planted(FirstOf(m, i, n), partitions[..], cores[..], w, trees)
    {
      trees := Plant(partitions, cores, i, w, trees);
    }
    assert FirstOf(m, |m|, n) == m;
    forall q | 0 <= q < n ensures CoreOk(m, partitions[..], cores[q], w, trees[q]) {
      assert TreeOk(m, partitions[..], cores[..][q], w, trees[q]);
    }
  }

  // ---- Idle cores

  /** The core has no load, so its search tree is empty. */
  predicate Idle(m: seq<nat>, w: seq<int>, c: nat)
    requires |m| == |w|
  {
    LoadOf(m, w, c) == 0
  }

  ghost predicate TwoIdle(m: seq<nat>, w: seq<int>, n: nat)
    requires |m| == |w|
  {
    exists a: nat, b: nat {:trigger Idle(m, w, a), Idle(m, w, b)} ::
      a < n && b < n && a != b && Idle(m, w, a) && Idle(m, w, b)
  }

  /** Cores that are idle in `m'` have been so in `m`. */
  ghost predicate NoNewIdle(m: seq<nat>, m': seq<nat>, w: seq<int>)
    requires |m| == |m'| == |w|
  {
    forall c: nat {:trigger Idle(m', w, c)} :: Idle(m', w, c) ==> Idle(m, w, c)
  }

  lemma NoNewIdleYet(m: seq<nat>, m': seq<nat>, m'': seq<nat>, w: seq<int>)
    requires |m| == |m'| == |m''| == |w| && NoNewIdle(m, m', w) && NoNewIdle(m', m'', w)
    ensures NoNewIdle(m, m'', w)
  {
  }

  lemma TwoIdleBefore(m: seq<nat>, m': seq<nat>, w: seq<int>, n: nat)
    requires |m| == |m'| == |w| && NoNewIdle(m, m', w) && TwoIdle(m', w, n)
    ensures TwoIdle(m, w, n)
  {
    var a: nat, b: nat :| a < n && b < n && a != b && Idle(m', w, a) && Idle(m', w, b);
    assert Idle(m, w, a) && Idle(m, w, b);
  }

  lemma AtMostItsLoad(m: seq<nat>, w: seq<int>, x: nat)
    requires |m| == |w| && NonNegative(w) && x < |m|
    ensures w[x] <= LoadOf(m, w, m[x])
  {
    MoveChangesLoad(m, w, m[x], x, m[x] + 1, |m|);
    LoadNonNegative(m[x := m[x] + 1], w, m[x], |m|);
  }

  /** A core that gives away less than its load does not become idle. */
  lemma MoveLeavesNoIdle(m: seq<nat>, w: seq<int>, x: nat, d: nat)
    requires |m| == |w| && NonNegative(w) && x < |m| && w[x] < LoadOf(m, w, m[x])
    ensures NoNewIdle(m, m[x := d], w)
  {
    forall c: nat | Idle(m[x := d], w, c) ensures Idle(m, w, c) {
      MoveChangesLoad(m, w, c, x, d, |m|);
      LoadNonNegative(m, w, c, |m|);
    }
  }

  /** A load vector on which the partition mover runs into an empty tree: apart from at least two idle
      cores all cores are overloaded; the lightest of these falls to the average, and lifts an idle core
      no further than below the average, when it gives away any one of its partitions; the others carry
      a single partition each. */
  ghost predicate Trap(m: seq<nat>, w: seq<int>, n: nat, avg: int, f: nat)
    requires |m| == |w|
  {
    && f < n && LoadOf(m, w, f) > avg && TwoIdle(m, w, n)
    && (forall x :: 0 <= x < |m| && m[x] == f && w[x] > 0 ==> w[x] < avg && LoadOf(m, w, f) - w[x] <= avg)
    && (forall c: nat {:trigger Idle(m, w, c)} :: c < n && c != f && !Idle(m, w, c) ==>
          LoadOf(m, w, c) > LoadOf(m, w, f) && OnlyWhole(m, w, c))
  }

  ghost predicate Trapped(m: seq<nat>, w: seq<int>, n: nat, avg: int)
    requires |m| == |w|
  {
    exists f: nat :: Trap(m, w, n, avg, f)
  }

  ghost predicate OnlyWhole(m: seq<nat>, w: seq<int>, c: nat)
    requires |m| == |w|
  {
    forall x :: 0 <= x < |m| && m[x] == c && w[x] > 0 ==> w[x] == LoadOf(m, w, c)
  }

  // ---- One epoch of moves

  /** The same, by the cores' positions after sorting: those below `first` are not overloaded. */
  ghost predicate TrapAt(m: seq<nat>, w: seq<int>, cores: seq<Core>, avg: int, first: nat)
    requires |m| == |w| && first < |cores|
  {
    && first >= 2 && avg > 0 && cores[first].load > avg
    && (forall q :: 0 <= q < first ==> cores[q].load == 0)
    && (forall x :: 0 <= x < |m| && m[x] == cores[first].ind && w[x] > 0 ==>
          w[x] < avg && cores[first].load - w[x] <= avg)
    && (forall q :: first < q < |cores| ==> cores[q].load > avg)
    && (forall q, x :: first < q < |cores| && 0 <= x < |m| && m[x] == cores[q].ind && w[x] > 0 ==>
          w[x] == cores[q].load)
  }

  lemma TrapIsAt(m: seq<nat>, p: seq<Partition>, cores: seq<Core>, w: seq<int>, trees: seq<Tree>, avg: int,
                 first: nat, f: nat)
    requires Spread(m, p, cores, w, trees) && Ascending(cores) && Trap(m, w, |cores|, avg, f) && avg >= 0
    requires first < |cores| && cores[first].load > avg && forall q :: 0 <= q < first ==> cores[q].load <= avg
    ensures TrapAt(m, w, cores, avg, first)
  {
    var k := PositionOf(m, p, cores, w, trees, f);
    forall q | 0 <= q < |cores| && cores[q].ind != f && cores[q].load != 0
      ensures cores[q].load > cores[k].load && OnlyWhole(m, w, cores[q].ind)
    {
      assert CoreOk(m, p, cores[q], w, trees[cores[q].ind]);
      assert !Idle(m, w, cores[q].ind);
    }
    assert first == k;
    var x := LoadedHasPartition(m, w, f, |m|);
    var a: nat, b: nat :| a < |cores| && b < |cores| && a != b && Idle(m, w, a) && Idle(m, w, b);
    var i := PositionOf(m, p, cores, w, trees, a);
    var j := PositionOf(m, p, cores, w, trees, b);
    assert i != j && i < first && j < first;
    forall q | first < q < |cores| ensures cores[q].load > avg && CoreOk(m, p, cores[q], w, trees[cores[q].ind]) {
    }
  }

  lemma PositionOf(m: seq<nat>, p: seq<Partition>, cores: seq<Core>, w: seq<int>, trees: seq<Tree>, c: nat)
    returns (q: nat)
    requires Spread(m, p, cores, w, trees) && c < |cores|
    ensures q < |cores| && cores[q].ind == c && cores[q].load == LoadOf(m, w, c)
  {
    var inds := seq(|cores|, q requires 0 <= q < |cores| => cores[q].ind);
    Pigeonhole(inds, |cores|);
    assert c in inds;
    q :| 0 <= q < |cores| && inds[q] == c;
    assert CoreOk(m, p, cores[q], w, trees[cores[q].ind]);
  }

  /** How far the moves have got in a trap: nothing has moved, or one partition has gone to the lightest
      core, or the empty tree has been met. */
  ghost predicate InTrap(m0: seq<nat>, start: seq<Core>, m: seq<nat>, now: seq<Core>, avg: int, first: nat,
                         ol: int, ul: nat, missed: bool)
    requires 0 < first < |now|
  {
    || missed
    || (ul == 0 && ol >= first && now == start && m == m0)
    || (ul == 0 && ol == first && now[first].load <= avg && now[0].load < avg && now[first - 1].load == 0)
  }

  /** What the moves of an epoch keep.  `start` and `m0` are the cores and the mapping at its begin. */
  ghost predicate EpochInv(m0: seq<nat>, start: seq<Core>, m: seq<nat>, now: seq<Core>, w: seq<int>, avg: int,
                           first: nat, ol: int, ul: nat, missed: bool)
    requires |m0| == |m| == |w| && |start| == |now|
  {
    && first < |now| && ul <= first && first - 2 <= ol < |now| && avg >= 0
    && (forall q :: 0 <= q < |now| ==> now[q].load >= 0 && now[q].ind == start[q].ind)
    && (forall q :: first <= q < ol ==> now[q].load > avg)
    && NoNewIdle(m0, m, w)
    && (ol >= first ==>
          && (forall q :: 0 <= q < first ==> now[q].load >= start[q].load)
          && (forall q :: 0 <= q < ul ==> now[q].load >= avg)
          && (first > 0 && now[0].load == 0 ==> forall q :: first <= q <= ol ==> now[q].load > avg))
    && (missed ==> first >= 2 && start[0].load == 0 && start[first - 1].load == 0)
    && (TrapAt(m0, w, start, avg, first) ==> InTrap(m0, start, m, now, avg, first, ol, ul, missed))
  }

  lemma EpochBegins(m: seq<nat>, start: seq<Core>, w: seq<int>, avg: int, first: nat)
    requires |m| == |w| && first < |start| && avg >= 0 && Ascending(start) && start[first].load > avg
    requires forall q :: 0 <= q < |start| ==> start[q].load >= 0
    ensures EpochInv(m, start, m, start, w, avg, first, |start| - 1, 0, false)
  {
  }

  /** The underloaded core has been filled up. */
  lemma FilledStep(m0: seq<nat>, start: seq<Core>, m: seq<nat>, now: seq<Core>, w: seq<int>, avg: int,
                   first: nat, ol: int, ul: nat, missed: bool)
    requires |m0| == |m| == |w| && |start| == |now|
    requires EpochInv(m0, start, m, now, w, avg, first, ol, ul, missed) && ol >= first && ul < first
    requires now[ul].load >= avg
    ensures EpochInv(m0, start, m, now, w, avg, first, if now[ol].load <= avg then ol - 1 else ol, ul + 1, missed)
  {
  }

  /** The search has met an empty tree. */
  lemma MissedStep(m0: seq<nat>, start: seq<Core>, m: seq<nat>, now: seq<Core>, w: seq<int>, avg: int,
                   first: nat, ol: int, ul: nat, missed: bool)
    requires |m0| == |m| == |w| && |start| == |now| && Ascending(start)
    requires forall q :: 0 <= q < |start| ==> start[q].load >= 0
    requires EpochInv(m0, start, m, now, w, avg, first, ol, ul, missed) && ol >= first && ul < first
    requires now[ul].load < avg
    requires var ol1 := if now[ol].load <= avg then ol - 1 else ol; now[ol1].load == 0
    ensures EpochInv(m0, start, m, now, w, avg, first, if now[ol].load <= avg then ol - 1 else ol, ul, true)
  {
  }

  /** The partition found is all that the core carries. */
  lemma WholeStep(m0: seq<nat>, start: seq<Core>, m: seq<nat>, now: seq<Core>, w: seq<int>, avg: int,
                  first: nat, ol: int, ul: nat, missed: bool, x: nat)
    requires |m0| == |m| == |w| && |start| == |now|
    requires EpochInv(m0, start, m, now, w, avg, first, ol, ul, missed) && ol >= first && ul < first
    requires now[ul].load < avg && x < |m|
    requires var ol1 := if now[ol].load <= avg then ol - 1 else ol;
             now[ol1].load != 0 && m[x] == now[ol1].ind && w[x] == now[ol1].load
    ensures EpochInv(m0, start, m, now, w, avg, first, if now[ol].load <= avg then ol - 2 else ol - 1, ul, missed)
  {
  }

  /** A partition has moved. */
  lemma MovedStep(m0: seq<nat>, start: seq<Core>, m: seq<nat>, now: seq<Core>, w: seq<int>, avg: int,
                  first: nat, ol: int, ul: nat, missed: bool, x: nat, m': seq<nat>, now': seq<Core>)
    requires |m0| == |m| == |m'| == |w| && |start| == |now| == |now'|
    requires EpochInv(m0, start, m, now, w, avg, first, ol, ul, missed) && ol >= first && ul < first
    requires now[ul].load < avg && x < |m| && NoNewIdle(m, m', w)
    requires var ol1 := if now[ol].load <= avg then ol - 1 else ol;
             && m[x] == now[ol1].ind && 0 < w[x] < now[ol1].load
             && Moved(now, now', ol1, ul, w[x])
    ensures EpochInv(m0, start, m', now', w, avg, first, if now[ol].load <= avg then ol - 1 else ol, ul, missed)
  {
  }

  /** What one search, and the move that follows it, does: `lacking` when the tree of core `ol` is empty;
      nothing when the partition found is all that the core carries; else the partition moves. */
  ghost predicate OneStep(m: seq<nat>, now: seq<Core>, m': seq<nat>, now': seq<Core>, w: seq<int>, ol: nat, ul: nat,
                          ol': int, x: int, lacking: bool)
    requires |m| == |m'| == |w| && ol < |now|
  {
    && (lacking <==> now[ol].load == 0)
    && (lacking ==> ol' == ol && m' == m && now' == now)
    && (!lacking ==>
          && 0 <= x < |m| && m[x] == now[ol].ind && w[x] > 0
          && if w[x] == now[ol].load then ol' == ol - 1 && m' == m && now' == now
             else ol' == ol && w[x] < now[ol].load && Moved(now, now', ol, ul, w[x]) && NoNewIdle(m, m', w))
  }

  lemma EpochStep(m0: seq<nat>, start: seq<Core>, m: seq<nat>, now: seq<Core>, m': seq<nat>, now': seq<Core>,
                  w: seq<int>, avg: int, first: nat, ol: int, ul: nat, missed: bool, ol1: nat, ol': int, x: int,
                  lacking: bool)
    requires |m0| == |m| == |m'| == |w| && |start| == |now| && Ascending(start)
    requires forall q :: 0 <= q < |start| ==> start[q].load >= 0
    requires EpochInv(m0, start, m, now, w, avg, first, ol, ul, missed) && ol >= first && ul < first
    requires now[ul].load < avg && ol1 == (if now[ol].load <= avg then ol - 1 else ol)
    requires OneStep(m, now, m', now', w, ol1, ul, ol', x, lacking)
    ensures |now'| == |start| && EpochInv(m0, start, m', now', w, avg, first, ol', ul, missed || lacking)
  {
    if lacking {
      MissedStep(m0, start, m, now, w, avg, first, ol, ul, missed);
    } else if w[x] == now[ol1].load {
      WholeStep(m0, start, m, now, w, avg, first, ol, ul, missed, x);
    } else {
      MovedStep(m0, start, m, now, w, avg, first, ol, ul, missed, x, m', now');
    }
  }

  /** What the invariant says when the loop is left. */
  lemma EpochEnds(m0: seq<nat>, p: seq<Partition>, start: seq<Core>, w: seq<int>, trees: seq<Tree>, m: seq<nat>,
                  now: seq<Core>, avg: int, first: nat, ol: int, ul: nat, missed: bool)
    requires Spread(m0, p, start, w, trees) && Ascending(start) && |m| == |m0| && |now| == |start|
    requires first < |start| && start[first].load > avg && forall q :: 0 <= q < first ==> start[q].load <= avg
    requires EpochInv(m0, start, m, now, w, avg, first, ol, ul, missed) && (ol < first || ul >= first)
    ensures missed ==> TwoIdle(m0, w, |start|)
    ensures missed ==> forall q :: 0 <= q < |start| && start[q].load <= avg ==> start[q].load == 0
    ensures Trapped(m0, w, |start|, avg) ==> missed
  {
    LoadsNonNegative(m0, p, start, w, trees);
    if missed {
      assert CoreOk(m0, p, start[0], w, trees[start[0].ind]);
      assert CoreOk(m0, p, start[first - 1], w, trees[start[first - 1].ind]);
      assert Idle(m0, w, start[0].ind) && Idle(m0, w, start[first - 1].ind);
    }
    if f: nat :| Trap(m0, w, |start|, avg, f) {
      TrapIsAt(m0, p, start, w, trees, avg, first, f);
    }
  }

  lemma LoadsNonNegative(m: seq<nat>, p: seq<Partition>, cores: seq<Core>, w: seq<int>, trees: seq<Tree>)
    requires Spread(m, p, cores, w, trees)
    ensures forall q :: 0 <= q < |cores| ==> cores[q].load >= 0
  {
    forall q | 0 <= q < |cores| ensures cores[q].load >= 0 {
      assert CoreOk(m, p, cores[q], w, trees[cores[q].ind]);
      LoadNonNegative(m, w, cores[q].ind, |m|);
    }
  }

  // ---- The epoch as a greedy choice among loads

  /** The positive loads of the partitions that the first `k` of the mapping put on core `c`. */
  function PartsUpTo(m: seq<nat>, w: seq<int>, c: nat, k: nat): multiset<int>
    requires k <= |m| == |w|
  {
    if k == 0 then multiset{} else PartsUpTo(m, w, c, k - 1) + Part(m, w, c, k - 1)
  }

  function Part(m: seq<nat>, w: seq<int>, c: nat, i: nat): multiset<int>
    requires i < |m| == |w|
  {
    if m[i] == c && w[i] > 0 then multiset{w[i]} else multiset{}
  }

  lemma {:induction false} PartsAre(m: seq<nat>, w: seq<int>, c: nat, k: nat, v: int)
    requires k <= |m| == |w|
    ensures v in PartsUpTo(m, w, c, k) <==> exists i :: 0 <= i < k && m[i] == c && w[i] == v && v > 0
  {
    if k > 0 {
      PartsAre(m, w, c, k - 1, v);
    }
  }

  lemma {:induction false} PartsKeep(m: seq<nat>, m': seq<nat>, w: seq<int>, c: nat, k: nat)
    requires k <= |m| == |w| == |m'|
    requires forall i :: 0 <= i < k ==> Part(m', w, c, i) == Part(m, w, c, i)
    ensures PartsUpTo(m', w, c, k) == PartsUpTo(m, w, c, k)
  {
    if k > 0 {
      PartsKeep(m, m', w, c, k - 1);
    }
  }

  /** Core `c` has partition `x`, with load `v`, by `m` but not by `m'`. */
  lemma {:induction false} PartsLose(m: seq<nat>, m': seq<nat>, w: seq<int>, c: nat, x: nat, v: int, k: nat)
    requires x < k <= |m| == |w| == |m'|
    requires forall i :: 0 <= i < k && i != x ==> Part(m', w, c, i) == Part(m, w, c, i)
    requires Part(m, w, c, x) == multiset{v} && Part(m', w, c, x) == multiset{}
    ensures PartsUpTo(m, w, c, k) == PartsUpTo(m', w, c, k) + multiset{v}
  {
    if x == k - 1 {
      PartsKeep(m, m', w, c, k - 1);
    } else {
      PartsLose(m, m', w, c, x, v, k - 1);
      SwapParts(PartsUpTo(m', w, c, k - 1), multiset{v}, Part(m, w, c, k - 1));
    }
  }

  lemma SwapParts(a: multiset<int>, b: multiset<int>, c: multiset<int>)
    ensures a + b + c == a + c + b
  {
  }

  predicate ChangedAt(m: seq<nat>, m': seq<nat>, x: nat, d: nat) {
    x < |m| == |m'| && m'[x] == d != m[x] && forall i :: 0 <= i < |m| && i != x ==> m'[i] == m[i]
  }

  lemma LoserParts(m: seq<nat>, m': seq<nat>, w: seq<int>, x: nat, d: nat)
    requires ChangedAt(m, m', x, d) && |m| == |w| && w[x] > 0
    ensures PartsUpTo(m', w, m[x], |m|) == PartsUpTo(m, w, m[x], |m|) - multiset{w[x]}
  {
    PartsLose(m, m', w, m[x], x, w[x], |m|);
  }

  lemma GainerParts(m: seq<nat>, m': seq<nat>, w: seq<int>, x: nat, d: nat)
    requires ChangedAt(m, m', x, d) && |m| == |w| && w[x] > 0
    ensures PartsUpTo(m', w, d, |m|) == PartsUpTo(m, w, d, |m|) + multiset{w[x]}
  {
    PartsLose(m', m, w, d, x, w[x], |m|);
  }

  lemma OtherParts(m: seq<nat>, m': seq<nat>, w: seq<int>, x: nat, d: nat, c: nat)
    requires ChangedAt(m, m', x, d) && |m| == |w| && c != m[x] && c != d
    ensures PartsUpTo(m', w, c, |m|) == PartsUpTo(m, w, c, |m|)
  {
    PartsKeep(m, m', w, c, |m|);
  }

  /** `s` is nothing but the loads, in the order of the cores. */
  ghost predicate Seen(m: seq<nat>, w: seq<int>, now: seq<Core>, s: G.Cores)
    requires |m| == |w|
  {
    && |s.loads| == |s.parts| == |now|
    && (forall q {:trigger s.loads[q]} :: 0 <= q < |now| ==> s.loads[q] == now[q].load)
    && (forall q {:trigger s.parts[q]} :: 0 <= q < |now| ==> s.parts[q] == PartsUpTo(m, w, now[q].ind, |m|))
  }

  /** The loads of the cores and of their partitions, with the cores in this order. */
  function ViewOf(m: seq<nat>, w: seq<int>, order: seq<nat>): (s: G.Cores)
    requires |m| == |w|
    ensures G.Shaped(s) && |s.loads| == |order|
  {
    G.Cores(seq(|order|, q requires 0 <= q < |order| => LoadOf(m, w, order[q])),
            seq(|order|, q requires 0 <= q < |order| => PartsUpTo(m, w, order[q], |m|)))
  }

  function Inds(cores: seq<Core>): (r: seq<nat>)
    ensures |r| == |cores|
  {
    seq(|cores|, q requires 0 <= q < |cores| => cores[q].ind)
  }

  /** All cores, ascending by load. */
  ghost predicate AscendingOrder(m: seq<nat>, w: seq<int>, n: nat, order: seq<nat>)
    requires |m| == |w|
  {
    && |order| == n && Distinct(order) && Below(order, n)
    && forall q, r :: 0 <= q < r < n ==> LoadOf(m, w, order[q]) <= LoadOf(m, w, order[r])
  }

  /** An epoch of moves, with the cores in this order, has turned `m` into `m'` as the greedy choices among the loads
      say, unless one of these has met a core without partitions. */
  ghost predicate EpochOk(m: seq<nat>, m': seq<nat>, w: seq<int>, n: nat, avg: int, order: seq<nat>, missed: bool)
    requires |m| == |m'| == |w|
  {
    && AscendingOrder(m, w, n, order)
    && (missed <==> G.Epoch(ViewOf(m, w, order), avg).NoPart?)
    && (!missed ==> ViewOf(m', w, order) == G.Epoch(ViewOf(m, w, order), avg).s)
  }

  lemma ViewIsSeen(m: seq<nat>, p: seq<Partition>, cores: seq<Core>, w: seq<int>, trees: seq<Tree>, s: G.Cores)
    requires Spread(m, p, cores, w, trees)
    ensures Seen(m, w, cores, s) <==> s == ViewOf(m, w, Inds(cores))
  {
    var v := ViewOf(m, w, Inds(cores));
    forall q | 0 <= q < |cores| ensures v.loads[q] == cores[q].load {
      assert CoreOk(m, p, cores[q], w, trees[cores[q].ind]);
    }
    if Seen(m, w, cores, s) {
      assert s.loads == v.loads;
      assert s.parts == v.parts;
    }
  }

  lemma SortedIsOrder(m: seq<nat>, p: seq<Partition>, cores: seq<Core>, w: seq<int>, trees: seq<Tree>)
    requires Spread(m, p, cores, w, trees) && Ascending(cores)
    ensures AscendingOrder(m, w, |cores|, Inds(cores))
  {
    forall q | 0 <= q < |cores| ensures LoadOf(m, w, cores[q].ind) == cores[q].load {
      assert CoreOk(m, p, cores[q], w, trees[cores[q].ind]);
    }
  }

  lemma FirstIs(m: seq<nat>, p: seq<Partition>, cores: seq<Core>, w: seq<int>, trees: seq<Tree>, avg: int, first: nat)
    requires Spread(m, p, cores, w, trees) && first < |cores| && cores[first].load > avg
    requires forall q :: 0 <= q < first ==> cores[q].load <= avg
    ensures var s := ViewOf(m, w, Inds(cores));
            Seen(m, w, cores, s) && G.Epoch(s, avg) == G.Course(s, avg, first, |cores| - 1, 0)
  {
    var s := ViewOf(m, w, Inds(cores));
    ViewIsSeen(m, p, cores, w, trees, s);
    assert G.IsFirst(s.loads, avg, first);
    G.EpochIs(s, avg, first);
  }

  /** The search has met no partition, or picked `x`, which may have moved to core `ul`. */
  ghost predicate Picked(m: seq<nat>, now: seq<Core>, m': seq<nat>, w: seq<int>, ol: nat, ul: nat, missing: int, x: int,
                         lacking: bool)
    requires |m| == |m'| == |w| && ol < |now| && ul < |now|
  {
    var parts := PartsUpTo(m, w, now[ol].ind, |m|);
    && (lacking <==> parts == multiset{})
    && (!lacking ==> 0 <= x < |m| && G.IsPick(parts, missing, w[x]))
    && (!lacking && w[x] != now[ol].load ==> m' == m[x := now[ul].ind])
  }

  lemma SearchPicks(m: seq<nat>, p: seq<Partition>, core: Core, w: seq<int>, t: Tree, target: int, r: int)
    requires |m| == |w| && TreeOk(m, p, core, w, t) && IsBest(t, w, target, r)
    ensures var parts := PartsUpTo(m, w, core.ind, |m|);
            (r == -1 <==> parts == multiset{}) && (r >= 0 ==> r < |w| && G.IsPick(parts, target, w[r]))
  {
    var parts := PartsUpTo(m, w, core.ind, |m|);
    forall v ensures v in parts <==> exists i :: i in Members(t) && w[i] == v {
      PartsAre(m, w, core.ind, |m|, v);
    }
    if r == -1 {
      G.NoMembers(parts);
    } else {
      assert r in Members(t) && w[r] in parts;
    }
  }

  lemma PartsAfter(m: seq<nat>, now: seq<Core>, m': seq<nat>, w: seq<int>, ol: nat, ul: nat, x: nat, q: nat)
    requires |m| == |m'| == |w| && ol < |now| && ul < |now| && ol != ul && x < |m| && q < |now|
    requires Apart(now) && m[x] == now[ol].ind && w[x] > 0 && m' == m[x := now[ul].ind]
    ensures var before, after := PartsUpTo(m, w, now[q].ind, |m|), PartsUpTo(m', w, now[q].ind, |m|);
            after == if q == ul then before + multiset{w[x]} else if q == ol then before - multiset{w[x]} else before
  {
    if q == ul {
      GainerParts(m, m', w, x, now[ul].ind);
    } else if q == ol {
      LoserParts(m, m', w, x, now[ul].ind);
    } else {
      OtherParts(m, m', w, x, now[ul].ind, now[q].ind);
    }
  }

  lemma LoadsMoved(now: seq<Core>, now': seq<Core>, ol: nat, ul: nat, v: int, s: G.Cores, q: nat)
    requires ol < |now| && ul < |now| && Moved(now, now', ol, ul, v) && |s.loads| == |s.parts| == |now| && q < |now|
    requires s.loads[q] == now[q].load && s.loads[ol] == now[ol].load && s.loads[ul] == now[ul].load
    ensures G.Moved(s, ol, ul, v).loads[q] == now'[q].load
  {
  }

  lemma PartsMoved(m: seq<nat>, now: seq<Core>, m': seq<nat>, w: seq<int>, ol: nat, ul: nat, x: nat, s: G.Cores, q: nat)
    requires |m| == |m'| == |w| && ol < |now| && ul < |now| && x < |m| && Apart(now) && q < |now|
    requires Seen(m, w, now, s) && m[x] == now[ol].ind && w[x] > 0 && m' == m[x := now[ul].ind]
    ensures G.Moved(s, ol, ul, w[x]).parts[q] == PartsUpTo(m', w, now[q].ind, |m|)
  {
    if ol == ul {
      assert m' == m;
    } else {
      PartsAfter(m, now, m', w, ol, ul, x, q);
    }
  }

  lemma SeenMoved(m: seq<nat>, now: seq<Core>, m': seq<nat>, now': seq<Core>, w: seq<int>, ol: nat, ul: nat, x: nat,
                  s: G.Cores)
    requires |m| == |m'| == |w| && ol < |now| && ul < |now| && x < |m| && Apart(now) && Seen(m, w, now, s)
    requires m[x] == now[ol].ind && w[x] > 0 && m' == m[x := now[ul].ind] && Moved(now, now', ol, ul, w[x])
    ensures Seen(m', w, now', G.Moved(s, ol, ul, w[x]))
  {
    var t := G.Moved(s, ol, ul, w[x]);
    forall q | 0 <= q < |now| ensures t.loads[q] == now'[q].load {
      LoadsMoved(now, now', ol, ul, w[x], s, q);
    }
    forall q | 0 <= q < |now| ensures t.parts[q] == PartsUpTo(m', w, now'[q].ind, |m|) {
      PartsMoved(m, now, m', w, ol, ul, x, s, q);
    }
  }

  /** What one search and the move that follows it do is the greedy choice among the loads. */
  ghost predicate Greedy(s: G.Cores, s': G.Cores, ol: nat, ul: nat, missing: int, ol': int, lacking: bool) {
    && |s.parts| == |s.loads| && ol < |s.loads| && ul < |s.loads|
    && G.Give(s, ol, ul, missing) == if lacking then G.NoPart else G.GoesOn(s', ol', ul)
  }

  lemma GiveIsGreedy(m: seq<nat>, now: seq<Core>, m': seq<nat>, now': seq<Core>, w: seq<int>, ol: nat, ul: nat,
                     missing: int, ol': int, x: int, lacking: bool, s: G.Cores) returns (s': G.Cores)
    requires |m| == |m'| == |w| && ol < |now| && ul < |now| && Apart(now) && Seen(m, w, now, s)
    requires OneStep(m, now, m', now', w, ol, ul, ol', x, lacking)
    requires Picked(m, now, m', w, ol, ul, missing, x, lacking)
    ensures Seen(m', w, now', s') && Greedy(s, s', ol, ul, missing, ol', lacking)
  {
    s' := s;
    if !lacking {
      G.PickIs(s.parts[ol], missing, w[x]);
      if w[x] != now[ol].load {
        SeenMoved(m, now, m', now', w, ol, ul, x, s);
        s' := G.Moved(s, ol, ul, w[x]);
      }
    }
  }

  /** The loop that moves partitions from overloaded to underloaded cores.  `missed` says that it has
      searched an empty tree, which is decided by the loads alone: it does so exactly when the greedy choice
      among the loads meets a core without partitions.  Then all cores that were not overloaded were idle,
      and there were at least two of them. */
  method MovePartitions(partitions: array<Partition>, cores: array<Core>, avg: int, ghost w: seq<int>,
                        ghost trees: seq<Tree>)
    returns (missed: bool, ghost trees': seq<Tree>)
    requires avg >= 0 && cores.Length > 0 && Ascending(cores[..]) && cores[cores.Length - 1].load > avg
    requires Spread(Mapping(partitions[..]), partitions[..], cores[..], w, trees)
    requires OnCores(Mapping(partitions[..]), cores.Length)
    modifies partitions, cores
    ensures Spread(Mapping(partitions[..]), partitions[..], cores[..], w, trees')
    ensures OnCores(Mapping(partitions[..]), cores.Length)
    ensures NoNewIdle(old(Mapping(partitions[..])), Mapping(partitions[..]), w)
    ensures missed ==> TwoIdle(old(Mapping(partitions[..])), w, cores.Length)
    ensures EpochOk(old(Mapping(partitions[..])), Mapping(partitions[..]), w, cores.Length, avg, Inds(old(cores[..])),
                    missed)
    ensures missed ==> forall q :: 0 <= q < cores.Length && old(cores[q].load) <= avg ==> old(cores[q].load) == 0
    ensures Trapped(old(Mapping(partitions[..])), w, cores.Length, avg) ==> missed
  {
    ghost var m0, p0, start := Mapping(partitions[..]), partitions[..], cores[..];
    var first := FirstOverloaded(cores, avg);
    LoadsNonNegative(m0, p0, start, w, trees);
    EpochBegins(m0, start, w, avg, first);
    ghost var s0 := ViewOf(m0, w, Inds(start));
    FirstIs(m0, p0, start, w, trees, avg, first);
    SortedIsOrder(m0, p0, start, w, trees);
    ghost var ol, ul, s;
    missed, trees', ol, ul, s := MoveLoop(partitions, cores, avg, first, w, trees, s0);
    EpochEnds(m0, p0, start, w, trees, Mapping(partitions[..]), cores[..], avg, first, ol, ul, missed);
    assert Inds(cores[..]) == Inds(start);
    ViewIsSeen(Mapping(partitions[..]), partitions[..], cores[..], w, trees', s);
  }

  /** The loop itself. */
  method MoveLoop(partitions: array<Partition>, cores: array<Core>, avg: int, first: nat, ghost w: seq<int>,
                  ghost trees: seq<Tree>, ghost s0: G.Cores)
    returns (missed: bool, ghost trees': seq<Tree>, ghost ol': int, ghost ul': nat, ghost s: G.Cores)
    requires cores.Length > 0 && Ascending(cores[..]) && forall q :: 0 <= q < cores.Length ==> cores[q].load >= 0
    requires Spread(Mapping(partitions[..]), partitions[..], cores[..], w, trees)
    requires OnCores(Mapping(partitions[..]), cores.Length) && Seen(Mapping(partitions[..]), w, cores[..], s0)
    requires EpochInv(Mapping(partitions[..]), cores[..], Mapping(partitions[..]), cores[..], w, avg, first,
                      cores.Length - 1, 0, false)
    modifies partitions, cores
    ensures Spread(Mapping(partitions[..]), partitions[..], cores[..], w, trees')
    ensures OnCores(Mapping(partitions[..]), cores.Length)
    ensures EpochInv(old(Mapping(partitions[..])), old(cores[..]), Mapping(partitions[..]), cores[..], w, avg, first,
                     ol', ul', missed)
    ensures ol' < first || ul' >= first
    ensures Seen(Mapping(partitions[..]), w, cores[..], s)
    ensures G.Course(s0, avg, first, cores.Length - 1, 0) == if missed then G.NoPart else G.GoesOn(s, ol', ul')
  {
    ghost var m0, start := Mapping(partitions[..]), cores[..];
    ghost var c := G.Course(s0, avg, first, cores.Length - 1, 0);
    trees', missed, s := trees, false, s0;
    var ol, ul := cores.Length - 1, 0;
    while ol >= first && ul < first
      invariant Spread(Mapping(partitions[..]), partitions[..], cores[..], w, trees')
      invariant OnCores(Mapping(partitions[..]), cores.Length) && 0 <= ul
      invariant EpochInv(m0, start, Mapping(partitions[..]), cores[..], w, avg, first, ol, ul, missed)
      invariant Seen(Mapping(partitions[..]), w, cores[..], s)
      invariant G.Onward(c, s, avg, first, ol, ul, missed)
      decreases ol - first + 2, first - ul, if 0 <= ol < cores.Length then cores[ol].load else 0
    {
      ol, ul, missed, trees', s := Advance(partitions, cores, avg, first, ol, ul, missed, w, trees', m0, start, c, s);
    }
    ol', ul' := ol, ul;
  }

  method FirstOverloaded(cores: array<Core>, avg: int) returns (first: nat)
    requires cores.Length > 0 && cores[cores.Length - 1].load > avg
    ensures first < cores.Length && cores[first].load > avg
    ensures forall q :: 0 <= q < first ==> cores[q].load <= avg
  {
    first := 0;
    while cores[first].load <= avg
      invariant 0 <= first < cores.Length && forall q :: 0 <= q < first ==> cores[q].load <= avg
      decreases cores.Length - first
    {
      first := first + 1;
    }
  }

  /** What the body of the loop does: turn to the next underloaded core, or search and move. */
  ghost predicate LoopStep(m: seq<nat>, now: seq<Core>, m': seq<nat>, now': seq<Core>, w: seq<int>, avg: int, ol: nat,
                           ul: nat, ol': int, ul': int, x: int, lacking: bool)
    requires |m| == |m'| == |w| && ul < ol < |now|
  {
    var ol1 := if now[ol].load <= avg then ol - 1 else ol;
    if now[ul].load >= avg then ol' == ol1 && ul' == ul + 1 && m' == m && now' == now && !lacking
    else ul' == ul && OneStep(m, now, m', now', w, ol1, ul, ol', x, lacking)
  }

  lemma EpochGoesOn(m0: seq<nat>, start: seq<Core>, m: seq<nat>, now: seq<Core>, m': seq<nat>, now': seq<Core>,
                    w: seq<int>, avg: int, first: nat, ol: nat, ul: nat, missed: bool, ol': int, ul': int, x: int,
                    lacking: bool)
    requires |m0| == |m| == |m'| == |w| && |start| == |now| && Ascending(start)
    requires forall q :: 0 <= q < |start| ==> start[q].load >= 0
    requires EpochInv(m0, start, m, now, w, avg, first, ol, ul, missed) && ol >= first && ul < first
    requires LoopStep(m, now, m', now', w, avg, ol, ul, ol', ul', x, lacking)
    ensures |now'| == |start| && 0 <= ul' && EpochInv(m0, start, m', now', w, avg, first, ol', ul', missed || lacking)
    ensures ol' < ol || (ol' == ol && (ul' > ul || (ul' == ul && 0 <= now'[ol].load < now[ol].load)))
  {
    if now[ul].load >= avg {
      FilledStep(m0, start, m, now, w, avg, first, ol, ul, missed);
    } else {
      var ol1 := if now[ol].load <= avg then ol - 1 else ol;
      EpochStep(m0, start, m, now, m', now', w, avg, first, ol, ul, missed, ol1, ol', x, lacking);
    }
  }

  /** The body of the loop. */
  method Advance(partitions: array<Partition>, cores: array<Core>, avg: int, first: nat, ol: nat, ul: nat,
                 missed: bool, ghost w: seq<int>, ghost trees: seq<Tree>, ghost m0: seq<nat>, ghost start: seq<Core>,
                 ghost c: G.Outcome, ghost s: G.Cores)
    returns (ol': int, ul': nat, missed': bool, ghost trees': seq<Tree>, ghost s': G.Cores)
    requires |m0| == |w| && |start| == cores.Length && Ascending(start) && first <= ol && ul < first
    requires forall q :: 0 <= q < |start| ==> start[q].load >= 0
    requires Spread(Mapping(partitions[..]), partitions[..], cores[..], w, trees)
    requires OnCores(Mapping(partitions[..]), cores.Length)
    requires EpochInv(m0, start, Mapping(partitions[..]), cores[..], w, avg, first, ol, ul, missed)
    requires Seen(Mapping(partitions[..]), w, cores[..], s) && G.Onward(c, s, avg, first, ol, ul, missed)
    modifies partitions, cores
    ensures Spread(Mapping(partitions[..]), partitions[..], cores[..], w, trees')
    ensures OnCores(Mapping(partitions[..]), cores.Length)
    ensures EpochInv(m0, start, Mapping(partitions[..]), cores[..], w, avg, first, ol', ul', missed')
    ensures Seen(Mapping(partitions[..]), w, cores[..], s') && G.Onward(c, s', avg, first, ol', ul', missed')
    ensures ol' < ol || (ol' == ol && (ul' > ul || (ul' == ul && 0 <= cores[ol].load < old(cores[ol].load))))
  {
    ghost var m, now := Mapping(partitions[..]), cores[..];
    var lacking;
    ghost var x;
    ol', ul', lacking, x, trees', s' := Turn(partitions, cores, avg, ol, ul, w, trees, s);
    EpochGoesOn(m0, start, m, now, Mapping(partitions[..]), cores[..], w, avg, first, ol, ul, missed, ol', ul', x,
                lacking);
    G.StillOnward(c, s, avg, first, ol, ul, missed, s', ol', ul', lacking);
    missed' := missed || lacking;
  }

  lemma MovesTurn(m: seq<nat>, now: seq<Core>, m': seq<nat>, now': seq<Core>, w: seq<int>, avg: int, ol: nat, ul: nat,
                  ol1: nat, ol': int, x: int, lacking: bool, s: G.Cores, s': G.Cores)
    requires |m| == |m'| == |w| && ul < ol < |now| && now[ul].load < avg && Seen(m, w, now, s)
    requires ol1 == (if now[ol].load <= avg then ol - 1 else ol)
    requires OneStep(m, now, m', now', w, ol1, ul, ol', x, lacking)
    requires Greedy(s, s', ol1, ul, avg - now[ul].load, ol', lacking)
    ensures LoopStep(m, now, m', now', w, avg, ol, ul, ol', ul, x, lacking)
    ensures G.Next(s, avg, ol, ul) == if lacking then G.NoPart else G.GoesOn(s', ol', ul)
  {
  }

  /** One turn of the loop, seen on its own. */
  method Turn(partitions: array<Partition>, cores: array<Core>, avg: int, ol: nat, ul: nat, ghost w: seq<int>,
              ghost trees: seq<Tree>, ghost s: G.Cores)
    returns (ol': int, ul': nat, lacking: bool, ghost x: int, ghost trees': seq<Tree>, ghost s': G.Cores)
    requires ul < ol < cores.Length && OnCores(Mapping(partitions[..]), cores.Length)
    requires Spread(Mapping(partitions[..]), partitions[..], cores[..], w, trees)
    requires Seen(Mapping(partitions[..]), w, cores[..], s)
    modifies partitions, cores
    ensures Spread(Mapping(partitions[..]), partitions[..], cores[..], w, trees')
    ensures OnCores(Mapping(partitions[..]), cores.Length)
    ensures LoopStep(old(Mapping(partitions[..])), old(cores[..]), Mapping(partitions[..]), cores[..], w, avg, ol, ul,
                     ol', ul', x, lacking)
    ensures Seen(Mapping(partitions[..]), w, cores[..], s')
    ensures G.Next(s, avg, ol, ul) == if lacking then G.NoPart else G.GoesOn(s', ol', ul')
  {
    ol', ul', lacking, x, trees', s' := ol, ul, false, -1, trees, s;
    if cores[ol].load <= avg {
      ol' := ol - 1;
    }
    var missing := avg - cores[ul].load;
    if missing > 0 {
      ghost var m, now, ol1 := Mapping(partitions[..]), cores[..], ol';
      ol', lacking, x, trees', s' := MoveOne(partitions, cores, ol', ul, missing, w, trees, s);
      MovesTurn(m, now, Mapping(partitions[..]), cores[..], w, avg, ol, ul, ol1, ol', x, lacking, s, s');
    } else {
      ul' := ul + 1;
    }
  }

  /** Its inner branch: move the best fitting partition of core `ol`, unless it is the core's only one.

      When the core has no load its tree is empty, and the source goes on with `partitions[-1]`; here
      nothing is moved and `lacking` is set. */
  method MoveOne(partitions: array<Partition>, cores: array<Core>, ol: nat, ul: nat, missing: int, ghost w: seq<int>,
                 ghost trees: seq<Tree>, ghost s: G.Cores)
    returns (ol': int, lacking: bool, ghost x: int, ghost trees': seq<Tree>, ghost s': G.Cores)
    requires ol < cores.Length && ul < cores.Length
    requires Spread(Mapping(partitions[..]), partitions[..], cores[..], w, trees)
    requires OnCores(Mapping(partitions[..]), cores.Length)
    requires Seen(Mapping(partitions[..]), w, cores[..], s)
    modifies partitions, cores
    ensures Spread(Mapping(partitions[..]), partitions[..], cores[..], w, trees')
    ensures OnCores(Mapping(partitions[..]), cores.Length)
    ensures OneStep(old(Mapping(partitions[..])), old(cores[..]), Mapping(partitions[..]), cores[..], w, ol, ul, ol', x,
                    lacking)
    ensures Seen(Mapping(partitions[..]), w, cores[..], s') && Greedy(s, s', ol, ul, missing, ol', lacking)
  {
    ghost var m, now, t := Mapping(partitions[..]), cores[..], trees[cores[ol].ind];
    assert CoreOk(m, partitions[..], cores[..][ol], w, t);
    EmptyTreeIsIdle(m, partitions[..], cores[ol], w, t);
    ol', trees' := ol, trees;
    var found := Search(partitions, cores[ol], missing, t, w);
    x, lacking := found, found == -1;
    SearchPicks(m, partitions[..], cores[ol], w, t, missing, found);
    if !lacking {
      AtMostItsLoad(m, w, found);
      if cores[ol].load == partitions[found].load {
        ol' := ol - 1;
      } else {
        MoveLeavesNoIdle(m, w, found, cores[ul].ind);
        trees' := MovePartition(partitions, cores, ol, ul, found, w, trees);
      }
    }
    s' := GiveIsGreedy(m, now, Mapping(partitions[..]), cores[..], w, ol, ul, missing, ol', x, lacking, s);
  }

  /** A core has no load exactly when its tree is empty. */
  lemma EmptyTreeIsIdle(m: seq<nat>, p: seq<Partition>, core: Core, w: seq<int>, t: Tree)
    requires |m| == |w| && NonNegative(w) && CoreOk(m, p, core, w, t)
    ensures t.Leaf? <==> core.load == 0
  {
    LoadNonNegative(m, w, core.ind, |m|);
    if core.load > 0 {
      var i := LoadedHasPartition(m, w, core.ind, |m|);
      assert i in Members(t);
    }
    if t.Node? {
      assert t.ind in Members(t);
      AtMostItsLoad(m, w, t.ind);
    }
  }

  // ---- The whole algorithm

  /** Each mapping has a strictly lighter heaviest core than the one before it. */
  ghost predicate Improving(saved: seq<seq<nat>>, w: seq<int>, n: nat)
    requires n > 0
  {
    && (forall k :: 0 <= k < |saved| ==> |saved[k]| == |w| && OnCores(saved[k], n))
    && forall k :: 0 < k < |saved| ==> MaxLoad(saved[k], w, n) < MaxLoad(saved[k - 1], w, n)
  }

  lemma {:induction false} LastIsBest(saved: seq<seq<nat>>, w: seq<int>, n: nat)
    requires n > 0 && Improving(saved, w, n) && |saved| > 1
    ensures MaxLoad(saved[|saved| - 1], w, n) < MaxLoad(saved[0], w, n)
  {
    if |saved| > 2 {
      LastIsBest(saved[..|saved| - 1], w, n);
    }
  }

  /** What `lb_rebalancing` promises about the mappings that it has saved, from the first to the last. */
  ghost predicate Rebalanced(saved: seq<seq<nat>>, first: seq<nat>, last: seq<nat>, w: seq<int>, n: nat)
    requires n > 0
  {
    && 0 < |saved| <= LB_MAX_NUM_ITER + 1 && Improving(saved, w, n)
    && saved[0] == first && saved[|saved| - 1] == last
  }

  // ---- The trail of an execution

  /** The mappings that an execution goes through; between each two of them the order of the cores, and whether the
      epoch of moves has met an empty tree. */
  datatype Trail = Trail(maps: seq<seq<nat>>, orders: seq<seq<nat>>, misses: seq<bool>)

  ghost predicate MapsOk(maps: seq<seq<nat>>, w: seq<int>) {
    forall k :: 0 <= k < |maps| ==> |maps[k]| == |w|
  }

  ghost predicate EpochAt(t: Trail, w: seq<int>, n: nat, avg: int, k: nat)
    requires MapsOk(t.maps, w) && k + 1 < |t.maps| == |t.orders| + 1 == |t.misses| + 1
  {
    EpochOk(t.maps[k], t.maps[k + 1], w, n, avg, t.orders[k], t.misses[k])
  }

  /** Each mapping comes from the one before it by an epoch of greedy moves. */
  ghost predicate TrailOk(t: Trail, w: seq<int>, n: nat, avg: int) {
    && MapsOk(t.maps, w) && |t.maps| == |t.orders| + 1 == |t.misses| + 1
    && (forall k :: 0 <= k < |t.maps| ==> OnCores(t.maps[k], n))
    && forall k: nat {:trigger EpochAt(t, w, n, avg, k)} :: k + 1 < |t.maps| ==> EpochAt(t, w, n, avg, k)
  }

  /** The heaviest core of mapping `k` is lighter than that of every earlier one. */
  ghost predicate IsLow(maps: seq<seq<nat>>, w: seq<int>, n: nat, k: nat)
    requires MapsOk(maps, w) && n > 0 && k < |maps|
  {
    forall j :: 0 <= j < k ==> MaxLoad(maps[k], w, n) < MaxLoad(maps[j], w, n)
  }

  /** Those of the first `k` mappings. */
  ghost function Lows(maps: seq<seq<nat>>, w: seq<int>, n: nat, k: nat): seq<seq<nat>>
    requires MapsOk(maps, w) && n > 0 && k <= |maps|
  {
    if k == 0 then [] else Lows(maps, w, n, k - 1) + if IsLow(maps, w, n, k - 1) then [maps[k - 1]] else []
  }

  /** After mapping `k` there is nothing more to do: it is good enough, or it is the last one that can be saved, or
      neither it nor the one before it is better than all earlier ones. */
  ghost predicate EndsAt(maps: seq<seq<nat>>, w: seq<int>, n: nat, goal: int, k: nat)
    requires MapsOk(maps, w) && n > 0 && k < |maps|
  {
    || MaxLoad(maps[k], w, n) <= goal
    || |Lows(maps, w, n, k + 1)| > LB_MAX_NUM_ITER
    || (k >= 2 && !IsLow(maps, w, n, k) && !IsLow(maps, w, n, k - 1))
  }

  /** None of the first `upto` mappings is the last one. */
  ghost predicate GoesOnTo(maps: seq<seq<nat>>, w: seq<int>, n: nat, goal: int, upto: nat)
    requires MapsOk(maps, w) && n > 0 && upto <= |maps|
  {
    forall k: nat {:trigger EndsAt(maps, w, n, goal, k)} :: k < upto ==> !EndsAt(maps, w, n, goal, k)
  }

  /** The execution goes from mapping to mapping until there is nothing more to do, and not beyond; `saved` are the
      mappings that are better than all earlier ones, and `final` is the last of them. */
  ghost predicate Climbed(t: Trail, first: seq<nat>, final: seq<nat>, saved: seq<seq<nat>>, w: seq<int>, n: nat,
                          avg: int, goal: int)
  {
    && TrailOk(t, w, n, avg) && n > 0 && t.maps != [] && t.maps[0] == first
    && saved == Lows(t.maps, w, n, |t.maps|) && saved != [] && saved[|saved| - 1] == final
    && EndsAt(t.maps, w, n, goal, |t.maps| - 1) && GoesOnTo(t.maps, w, n, goal, |t.maps| - 1)
  }

  /** The last low mapping is the best one so far. */
  lemma {:induction false} LastLowIsLeast(maps: seq<seq<nat>>, w: seq<int>, n: nat, k: nat)
    requires MapsOk(maps, w) && n > 0 && 0 < k <= |maps|
    ensures var r := Lows(maps, w, n, k);
            && r != [] && |r[|r| - 1]| == |w|
            && (exists j :: 0 <= j < k && r[|r| - 1] == maps[j])
            && forall j :: 0 <= j < k ==> MaxLoad(r[|r| - 1], w, n) <= MaxLoad(maps[j], w, n)
  {
    if k > 1 {
      LastLowIsLeast(maps, w, n, k - 1);
    }
  }

  lemma {:induction false} LowsKeep(maps: seq<seq<nat>>, m: seq<nat>, w: seq<int>, n: nat, k: nat)
    requires MapsOk(maps, w) && |m| == |w| && n > 0 && k <= |maps|
    ensures MapsOk(maps + [m], w) && Lows(maps + [m], w, n, k) == Lows(maps, w, n, k)
    ensures forall j: nat {:trigger IsLow(maps, w, n, j)} :: j < k ==>
              IsLow(maps + [m], w, n, j) == IsLow(maps, w, n, j)
  {
    if k > 0 {
      LowsKeep(maps, m, w, n, k - 1);
      assert forall j :: 0 <= j < |maps| ==> (maps + [m])[j] == maps[j];
      assert IsLow(maps + [m], w, n, k - 1) == IsLow(maps, w, n, k - 1);
    }
  }

  lemma EndsKeep(maps: seq<seq<nat>>, m: seq<nat>, w: seq<int>, n: nat, goal: int)
    requires MapsOk(maps, w) && |m| == |w| && n > 0 && GoesOnTo(maps, w, n, goal, |maps|)
    ensures MapsOk(maps + [m], w) && GoesOnTo(maps + [m], w, n, goal, |maps|)
  {
    LowsKeep(maps, m, w, n, |maps|);
    forall k: nat | k < |maps| ensures !EndsAt(maps + [m], w, n, goal, k) {
      LowsKeep(maps, m, w, n, k + 1);
      assert !EndsAt(maps, w, n, goal, k);
    }
  }

  lemma TrailGoesOn(t: Trail, w: seq<int>, n: nat, avg: int, m: seq<nat>, order: seq<nat>, miss: bool)
    requires TrailOk(t, w, n, avg) && t.maps != [] && |m| == |w| && OnCores(m, n)
    requires EpochOk(t.maps[|t.maps| - 1], m, w, n, avg, order, miss)
    ensures TrailOk(Trail(t.maps + [m], t.orders + [order], t.misses + [miss]), w, n, avg)
  {
    var r := Trail(t.maps + [m], t.orders + [order], t.misses + [miss]);
    forall k: nat | k + 1 < |r.maps| ensures EpochAt(r, w, n, avg, k) {
      assert k + 1 < |t.maps| ==> EpochAt(t, w, n, avg, k);
    }
  }

  /** Before the last mapping is examined: the last two greatest loads `max` and `prev` against the best mapping so
      far.  Right after saving, the last one belongs to it; one epoch later, the one before. */
  ghost predicate Examining(maps: seq<seq<nat>>, saved: seq<seq<nat>>, w: seq<int>, n: nat, goal: int, max: int,
                            prev: int, epoch: int)
    requires MapsOk(maps, w) && n > 0
  {
    && |maps| > 0 && saved == Lows(maps, w, n, |maps| - 1) && GoesOnTo(maps, w, n, goal, |maps| - 1)
    && |saved| <= LB_MAX_NUM_ITER
    && if |maps| == 1 then max == prev == INT32_MAX && epoch == 0
       else Examined(maps, saved, w, n, max, prev, epoch, |maps| - 2)
  }

  /** After mapping `k` has been examined. */
  ghost predicate Examined(maps: seq<seq<nat>>, saved: seq<seq<nat>>, w: seq<int>, n: nat, max: int, prev: int,
                           epoch: int, k: nat)
    requires MapsOk(maps, w) && n > 0 && k < |maps|
  {
    && saved != [] && |saved[|saved| - 1]| == |w| && epoch in {0, 1}
    && var best := MaxLoad(saved[|saved| - 1], w, n);
       if epoch == 0 then IsLow(maps, w, n, k) && max == best < prev
       else k >= 1 && !IsLow(maps, w, n, k) && IsLow(maps, w, n, k - 1) && max >= prev == best
  }

  lemma LowIsBetter(maps: seq<seq<nat>>, w: seq<int>, n: nat, k: nat)
    requires MapsOk(maps, w) && n > 0 && 0 < k < |maps|
    ensures var r := Lows(maps, w, n, k);
            && r != [] && |r[|r| - 1]| == |w|
            && (IsLow(maps, w, n, k) <==> MaxLoad(maps[k], w, n) < MaxLoad(r[|r| - 1], w, n))
  {
    LastLowIsLeast(maps, w, n, k);
  }

  lemma MaxLoadBound(m: seq<nat>, w: seq<int>, n: nat)
    requires |m| == |w| && n > 0 && NonNegative(w)
    ensures 0 <= MaxLoad(m, w, n) <= Total(w, |w|)
  {
    forall c: nat | c < n ensures 0 <= LoadOf(m, w, c) <= Total(w, |w|) {
      LoadNonNegative(m, w, c, |m|);
    }
    MaxLoadIs(m, w, n, Total(w, |w|));
    MaxLoadAtLeast(m, w, n, 0);
  }

  lemma {:induction false} MaxLoadAtLeast(m: seq<nat>, w: seq<int>, n: nat, c: nat)
    requires |m| == |w| && c < n
    ensures MaxLoad(m, w, n) >= LoadOf(m, w, c)
  {
    if c < n - 1 {
      MaxLoadAtLeast(m, w, n - 1, c);
    }
  }

  method SumLoads(cores: array<Core>, ghost m: seq<nat>, ghost w: seq<int>) returns (total: int)
    requires |m| == |w| && OnCores(m, cores.Length)
    requires forall q :: 0 <= q < cores.Length ==> cores[q].load == LoadOf(m, w, q)
    ensures total == Total(w, |w|)
  {
    total := 0;
    for i := 0 to cores.Length
      invariant total == SumOfLoads(m, w, i, |m|)
    {
      total := total + cores[i].load;
    }
    LoadIsConserved(m, w, cores.Length, |m|);
  }

  /** Whether some core carries more than the given load. */
  method AnyAbove(cores: array<Core>, bound: int) returns (b: bool)
    ensures b <==> exists q :: 0 <= q < cores.Length && cores[q].load > bound
  {
    for i := 0 to cores.Length
      invariant forall q :: 0 <= q < i ==> cores[q].load <= bound
    {
      if cores[i].load > bound {
        return true;
      }
    }
    b := false;
  }

  method SaveMapping(partitions: array<Partition>, newReta: array<nat>)
    requires newReta.Length == partitions.Length
    modifies newReta
    ensures newReta[..] == Mapping(partitions[..])
  {
    for i := 0 to partitions.Length
      invariant forall j :: 0 <= j < i ==> newReta[j] == partitions[j].core
    {
      newReta[i] := partitions[i].core;
    }
  }

  method RestoreMapping(partitions: array<Partition>, newReta: array<nat>)
    requires newReta.Length == partitions.Length
    modifies partitions
    ensures Mapping(partitions[..]) == newReta[..]
    ensures forall j :: 0 <= j < partitions.Length ==> partitions[j] == old(partitions[j]).(core := newReta[j])
  {
    for i := 0 to partitions.Length
      invariant forall j :: 0 <= j < partitions.Length ==>
                  partitions[j] == if j < i then old(partitions[j]).(core := newReta[j]) else old(partitions[j])
    {
      partitions[i] := partitions[i].(core := newReta[i]);
    }
  }

  /** The average load, and how far a core may be above it: the average load of a partition. */
  method Thresholds(total: int, partitions: nat, n: nat) returns (avg: int, allowed: int)
    requires total >= 0 && 0 < n <= partitions
    ensures avg == total / n && partitions / n > 0 && allowed == avg / (partitions / n)
    ensures avg >= 0 && allowed >= 0
  {
    avg := total / n;
    assert partitions / n > 0;
    allowed := avg / (partitions / n);
  }

  /** Some core is above the average by more than a partition's average load. */
  ghost predicate Unbalanced(m: seq<nat>, w: seq<int>, n: nat)
    requires |m| == |w| && 0 < n <= |m|
  {
    var avg := Total(w, |w|) / n;
    exists c: nat :: c < n && LoadOf(m, w, c) > avg / (|m| / n) + avg
  }

  /** The greatest load that a core may have: a partition's average load above the average. */
  function Goal(w: seq<int>, n: nat): int
    requires 0 < n <= |w|
  {
    var avg := Total(w, |w|) / n;
    avg / (|w| / n) + avg
  }

  lemma BalancedEnds(m: seq<nat>, w: seq<int>, n: nat, avg: int, goal: int)
    requires |m| == |w| && n > 0 && OnCores(m, n) && forall c: nat :: c < n ==> LoadOf(m, w, c) <= goal
    ensures Finished(Trail([m], [], []), m, m, [m], w, n, avg, goal, false)
  {
    MaxLoadIs(m, w, n, goal);
    assert Lows([m], w, n, 0) == [];
  }

  /** In whatever order of the cores with equal loads, an epoch of greedy moves makes the heaviest core lighter. */
  ghost predicate GreedyImproves(m: seq<nat>, w: seq<int>, n: nat, avg: int)
    requires |m| == |w| && n > 0
  {
    forall order :: AscendingOrder(m, w, n, order) ==>
      var r := G.Epoch(ViewOf(m, w, order), avg);
      r.GoesOn? && forall q :: 0 <= q < |r.s.loads| ==> r.s.loads[q] < MaxLoad(m, w, n)
  }

  lemma CoreInOrder(m: seq<nat>, w: seq<int>, n: nat, order: seq<nat>, c: nat) returns (q: nat)
    requires |m| == |w| && |order| == n && Distinct(order) && Below(order, n) && c < n
    ensures q < n && order[q] == c
  {
    var s: seq<int> := order;
    Pigeonhole(s, n);
    assert c in s;
    q :| 0 <= q < n && s[q] == c;
  }

  /** Then a call on such loads ends with a lighter heaviest core. */
  lemma GreedyClimbs(t: Trail, first: seq<nat>, final: seq<nat>, saved: seq<seq<nat>>, w: seq<int>, n: nat, avg: int,
                     goal: int)
    requires Climbed(t, first, final, saved, w, n, avg, goal) && MaxLoad(first, w, n) > goal
    requires GreedyImproves(first, w, n, avg)
    ensures |final| == |w| && MaxLoad(final, w, n) < MaxLoad(first, w, n)
  {
    assert Lows(t.maps, w, n, 1) == Lows(t.maps, w, n, 0) + if IsLow(t.maps, w, n, 0) then [first] else [];
    if |t.maps| > 1 {
      assert EpochAt(t, w, n, avg, 0);
      var m, order := t.maps[1], t.orders[0];
      forall c: nat | c < n ensures LoadOf(m, w, c) <= MaxLoad(first, w, n) - 1 {
        var q := CoreInOrder(first, w, n, order, c);
        assert ViewOf(m, w, order).loads[q] == LoadOf(m, w, c);
      }
      MaxLoadIs(m, w, n, MaxLoad(first, w, n) - 1);
      LastLowIsLeast(t.maps, w, n, |t.maps|);
    }
  }

  /** `lb_rebalancing`.  `saved` lists the mappings that were written to `new_reta`; `missed` says that the
      source goes on with `partitions[-1]` at some point, which it never does on a balanced call or with at
      most one idle core. */
  method LbRebalancing(partitions: array<Partition>, cores: array<Core>, ghost w: seq<int>)
    returns (improved: bool, missed: bool, ghost saved: seq<seq<nat>>, ghost trail: Trail)
    requires 0 < cores.Length <= partitions.Length
    requires HasLoads(partitions[..], w) && NonNegative(w) && Total(w, |w|) < INT32_MAX
    requires OnCores(Mapping(partitions[..]), cores.Length)
    requires forall q :: 0 <= q < cores.Length ==>
               cores[q].ind == q && cores[q].load == LoadOf(Mapping(partitions[..]), w, q)
    modifies partitions, cores
    ensures HasLoads(partitions[..], w) && OnCores(Mapping(partitions[..]), cores.Length)
    ensures Finished(trail, old(Mapping(partitions[..])), Mapping(partitions[..]), saved, w, cores.Length,
                     Total(w, |w|) / cores.Length, Goal(w, cores.Length), missed)
    ensures improved <==>
              MaxLoad(Mapping(partitions[..]), w, cores.Length) < MaxLoad(old(Mapping(partitions[..])), w, cores.Length)
    ensures !improved ==> Mapping(partitions[..]) == old(Mapping(partitions[..]))
    ensures missed ==> Unbalanced(old(Mapping(partitions[..])), w, cores.Length)
    ensures Unbalanced(old(Mapping(partitions[..])), w, cores.Length) ==>
              var m, avg := old(Mapping(partitions[..])), Total(w, |w|) / cores.Length;
              && (GreedyImproves(m, w, cores.Length, avg) ==> improved)
              && (Trapped(m, w, cores.Length, avg) ==> missed)
  {
    ghost var m := Mapping(partitions[..]);
    var n := cores.Length;
    saved := [m];
    var total := SumLoads(cores, m, w);
    MaxLoadBound(m, w, n);
    var avg, allowed := Thresholds(total, partitions.Length, n);
    var unbalanced := AnyAbove(cores, allowed + avg);
    if !unbalanced {
      trail := Trail([m], [], []);
      BalancedEnds(m, w, n, avg, allowed + avg);
      return false, false, saved, trail;
    }
    ghost var q :| 0 <= q < n && cores[q].load > allowed + avg;
    assert LoadOf(m, w, q) > avg / (|m| / n) + avg;
    MaxLoadAtLeast(m, w, n, q);
    improved, missed, saved, trail := Improve(partitions, cores, avg, allowed, w);
    Achieved(trail, m, Mapping(partitions[..]), saved, w, n, avg, allowed + avg, missed);
  }

  /** The part of `lb_rebalancing` for an unbalanced system. */
  method Improve(partitions: array<Partition>, cores: array<Core>, avg: int, allowed: int, ghost w: seq<int>)
    returns (improved: bool, missed: bool, ghost saved: seq<seq<nat>>, ghost trail: Trail)
    requires 0 < cores.Length && avg >= 0 && allowed >= 0
    requires HasLoads(partitions[..], w) && NonNegative(w) && Total(w, |w|) < INT32_MAX
    requires OnCores(Mapping(partitions[..]), cores.Length)
    requires forall q :: 0 <= q < cores.Length ==>
               cores[q].ind == q && cores[q].load == LoadOf(Mapping(partitions[..]), w, q)
    modifies partitions, cores
    ensures HasLoads(partitions[..], w)
    ensures Finished(trail, old(Mapping(partitions[..])), Mapping(partitions[..]), saved, w, cores.Length, avg,
                     allowed + avg, missed)
    ensures improved <==> |saved| > 1
  {
    ghost var m := Mapping(partitions[..]);
    var n := cores.Length;
    ghost var trees := PopulateTrees(partitions, cores, w);
    var copy := new Core[n](i requires 0 <= i < n reads cores => cores[i]);
    assert copy[..] == cores[..];
    var newReta := new nat[partitions.Length];
    var numIter;
    numIter, missed, saved, trail := Iterate(partitions, copy, newReta, avg, allowed, w, trees);
    RestoreMapping(partitions, newReta);
    improved := numIter > 1;
  }

  /** What the mappings that an execution has gone through and saved say about its result. */
  lemma Achieved(t: Trail, first: seq<nat>, final: seq<nat>, saved: seq<seq<nat>>, w: seq<int>, n: nat, avg: int,
                 goal: int, missed: bool)
    requires |first| == |w| && n > 0 && Finished(t, first, final, saved, w, n, avg, goal, missed)
    ensures |final| == |w| && (|saved| > 1 <==> MaxLoad(final, w, n) < MaxLoad(first, w, n))
    ensures |saved| <= 1 ==> final == first
    ensures MaxLoad(first, w, n) > goal ==>
              (GreedyImproves(first, w, n, avg) ==> |saved| > 1) && (Trapped(first, w, n, avg) ==> missed)
  {
    if |saved| > 1 {
      LastIsBest(saved, w, n);
    }
    if MaxLoad(first, w, n) > goal && GreedyImproves(first, w, n, avg) {
      GreedyClimbs(t, first, final, saved, w, n, avg, goal);
    }
  }

  /** Sort the cores and read off the greatest load. */
  method Heaviest(partitions: array<Partition>, cores: array<Core>, ghost w: seq<int>, ghost trees: seq<Tree>)
    returns (max: int)
    requires cores.Length > 0 && Spread(Mapping(partitions[..]), partitions[..], cores[..], w, trees)
    modifies cores
    ensures Spread(Mapping(partitions[..]), partitions[..], cores[..], w, trees) && Ascending(cores[..])
    ensures max == cores[cores.Length - 1].load == MaxLoad(Mapping(partitions[..]), w, cores.Length)
    ensures max <= Total(w, |w|)
  {
    ghost var m, before := Mapping(partitions[..]), cores[..];
    ghost var order := SortCores(cores);
    ReorderedSpread(m, partitions[..], before, cores[..], order, w, trees);
    LastIsHeaviest(m, partitions[..], cores[..], w, trees);
    MaxLoadBound(m, w, cores.Length);
    max := cores[cores.Length - 1].load;
  }

  /** What examining the last mapping finds: it is better than all earlier ones exactly when both comparisons say so;
      and once the mapping before it was no better either, only the first comparison can fail. */
  lemma LastIsExamined(maps: seq<seq<nat>>, saved: seq<seq<nat>>, w: seq<int>, n: nat, goal: int, max: int, prev: int,
                       epoch: int, v: int)
    requires MapsOk(maps, w) && n > 0 && Examining(maps, saved, w, n, goal, max, prev, epoch)
    requires v == MaxLoad(maps[|maps| - 1], w, n) < INT32_MAX
    ensures IsLow(maps, w, n, |maps| - 1) <==> v < prev && v < max
    ensures epoch in {0, 1} && (epoch == 1 && v < prev ==> v < max)
    ensures epoch == 1 <==> |maps| > 1 && !IsLow(maps, w, n, |maps| - 2)
    ensures v < prev && v < max ==> Examined(maps, saved + [maps[|maps| - 1]], w, n, v, max, 0, |maps| - 1)
    ensures !(v < prev && v < max) && epoch == 0 ==> Examined(maps, saved, w, n, v, max, 1, |maps| - 1)
    ensures Lows(maps, w, n, |maps|) == saved + if v < prev && v < max then [maps[|maps| - 1]] else []
  {
    if |maps| > 1 {
      LowIsBetter(maps, w, n, |maps| - 1);
    }
  }

  lemma {:induction false} LowsImprove(maps: seq<seq<nat>>, w: seq<int>, n: nat, k: nat)
    requires MapsOk(maps, w) && n > 0 && 0 < k <= |maps|
    requires forall j :: 0 <= j < |maps| ==> OnCores(maps[j], n)
    ensures var r := Lows(maps, w, n, k); r != [] && r[0] == maps[0] && Improving(r, w, n)
  {
    if k > 1 {
      LowsImprove(maps, w, n, k - 1);
      LowIsBetter(maps, w, n, k - 1);
    }
  }

  /** One more mapping to examine. */
  lemma OneMoreMap(t: Trail, saved: seq<seq<nat>>, w: seq<int>, n: nat, avg: int, goal: int, max: int, prev: int,
                   epoch: int, m: seq<nat>)
    requires TrailOk(t, w, n, avg) && n > 0 && t.maps != [] && |m| == |w|
    requires Ready(t, saved, w, n, goal, max, prev, epoch)
    ensures MapsOk(t.maps + [m], w) && Examining(t.maps + [m], saved, w, n, goal, max, prev, epoch)
  {
    LowsKeep(t.maps, m, w, n, |t.maps|);
    EndsKeep(t.maps, m, w, n, goal);
  }

  /** The last mapping has been examined, and the execution goes on. */
  ghost predicate Ready(t: Trail, saved: seq<seq<nat>>, w: seq<int>, n: nat, goal: int, max: int, prev: int, epoch: int)
    requires MapsOk(t.maps, w) && n > 0 && t.maps != []
  {
    && |saved| <= LB_MAX_NUM_ITER && saved == Lows(t.maps, w, n, |t.maps|) && GoesOnTo(t.maps, w, n, goal, |t.maps|)
    && Examined(t.maps, saved, w, n, max, prev, epoch, |t.maps| - 1)
  }

  /** The execution has gone from `first` to `m`. */
  ghost predicate Gone(t: Trail, first: seq<nat>, m: seq<nat>, w: seq<int>, n: nat, avg: int, missed: bool) {
    && TrailOk(t, w, n, avg) && t.maps != [] && t.maps[0] == first && t.maps[|t.maps| - 1] == m
    && Traced(t, w, n, avg, m, missed)
  }

  /** One more epoch of moves after others. */
  method MoveAgain(partitions: array<Partition>, cores: array<Core>, avg: int, missed: bool, ghost w: seq<int>,
                   ghost trees: seq<Tree>, ghost first: seq<nat>, ghost t: Trail, ghost saved: seq<seq<nat>>,
                   ghost goal: int, ghost max: int, ghost prev: int, ghost epoch: int)
    returns (missed': bool, ghost trees': seq<Tree>, ghost t': Trail)
    requires avg >= 0 && cores.Length > 0 && Ascending(cores[..]) && cores[cores.Length - 1].load > avg
    requires Spread(Mapping(partitions[..]), partitions[..], cores[..], w, trees)
    requires Gone(t, first, Mapping(partitions[..]), w, cores.Length, avg, missed)
    requires Ready(t, saved, w, cores.Length, goal, max, prev, epoch)
    modifies partitions, cores
    ensures Spread(Mapping(partitions[..]), partitions[..], cores[..], w, trees')
    ensures Gone(t', first, Mapping(partitions[..]), w, cores.Length, avg, missed')
    ensures Examining(t'.maps, saved, w, cores.Length, goal, max, prev, epoch)
  {
    ghost var m, order := Mapping(partitions[..]), Inds(cores[..]);
    var now;
    now, trees' := MovePartitions(partitions, cores, avg, w, trees);
    ghost var m' := Mapping(partitions[..]);
    TrailGoesOn(t, w, cores.Length, avg, m', order, now);
    OneMoreMap(t, saved, w, cores.Length, avg, goal, max, prev, epoch, m');
    t' := Trail(t.maps + [m'], t.orders + [order], t.misses + [now]);
    StillTraced(t, w, cores.Length, avg, m, missed, m', order, now);
    missed' := missed || now;
  }

  /** What is known of empty trees when mapping `m` has been reached. */
  ghost predicate Traced(t: Trail, w: seq<int>, n: nat, avg: int, m: seq<nat>, missed: bool) {
    && t.maps != [] && |t.maps[0]| == |m| == |w| && NoNewIdle(t.maps[0], m, w)
    && (missed <==> true in t.misses) && (missed ==> TwoIdle(t.maps[0], w, n))
    && (|t.maps| > 1 && Trapped(t.maps[0], w, n, avg) ==> missed)
  }

  lemma StillTraced(t: Trail, w: seq<int>, n: nat, avg: int, m: seq<nat>, missed: bool, m': seq<nat>, order: seq<nat>,
                    now: bool)
    requires Traced(t, w, n, avg, m, missed) && |m'| == |w| && NoNewIdle(m, m', w) && t.maps[|t.maps| - 1] == m
    requires now ==> TwoIdle(m, w, n)
    requires Trapped(m, w, n, avg) ==> now
    ensures Traced(Trail(t.maps + [m'], t.orders + [order], t.misses + [now]), w, n, avg, m', missed || now)
  {
    NoNewIdleYet(t.maps[0], m, m', w);
    if now {
      TwoIdleBefore(t.maps[0], m, w, n);
    }
  }

  /** Examine the present mapping and save it when it is better than all earlier ones. */
  method Examine(partitions: array<Partition>, cores: array<Core>, newReta: array<nat>, goal: int, max: int, prev: int,
                 epoch: int, numIter: nat, ghost w: seq<int>, ghost trees: seq<Tree>, ghost first: seq<nat>,
                 ghost t: Trail, ghost avg: int, ghost missed: bool, ghost saved: seq<seq<nat>>)
    returns (stop: bool, max': int, epoch': int, numIter': nat, ghost saved': seq<seq<nat>>)
    requires newReta.Length == partitions.Length && cores.Length > 0 && Total(w, |w|) < INT32_MAX
    requires Spread(Mapping(partitions[..]), partitions[..], cores[..], w, trees)
    requires Gone(t, first, Mapping(partitions[..]), w, cores.Length, avg, missed)
    requires Examining(t.maps, saved, w, cores.Length, goal, max, prev, epoch) && numIter == |saved|
    requires saved != [] ==> saved[|saved| - 1] == newReta[..]
    modifies cores, newReta
    ensures Spread(Mapping(partitions[..]), partitions[..], cores[..], w, trees) && Ascending(cores[..])
    ensures max' == cores[cores.Length - 1].load
    ensures saved' == Lows(t.maps, w, cores.Length, |t.maps|) && numIter' == |saved'| <= LB_MAX_NUM_ITER + 1
    ensures saved' != [] && saved'[|saved'| - 1] == newReta[..]
    ensures stop <==> EndsAt(t.maps, w, cores.Length, goal, |t.maps| - 1)
    ensures !stop ==> Ready(t, saved', w, cores.Length, goal, max', max, epoch') && max' > goal
  {
    max' := Heaviest(partitions, cores, w, trees);
    LastIsExamined(t.maps, saved, w, cores.Length, goal, max, prev, epoch, max');
    epoch', numIter', saved' := epoch, numIter, saved;
    if max' >= prev {
      if epoch > 0 {
        stop := true;
        return;
      } else {
        epoch' := epoch + 1;
      }
    } else if max' < max {
      numIter' := numIter + 1;
      epoch' := 0;
      SaveMapping(partitions, newReta);
      saved' := saved + [t.maps[|t.maps| - 1]];
    } else {
      epoch' := epoch + 1;
    }
    stop := max' <= goal || numIter' > LB_MAX_NUM_ITER;
  }

  /** What is known when the execution is over. */
  ghost predicate Finished(t: Trail, first: seq<nat>, final: seq<nat>, saved: seq<seq<nat>>, w: seq<int>, n: nat,
                           avg: int, goal: int, missed: bool)
    requires |first| == |w| && n > 0
  {
    && Climbed(t, first, final, saved, w, n, avg, goal) && Rebalanced(saved, first, final, w, n)
    && (missed <==> true in t.misses) && (missed ==> TwoIdle(first, w, n))
    && (MaxLoad(first, w, n) > goal && Trapped(first, w, n, avg) ==> missed)
  }

  lemma ClimbIsOver(t: Trail, first: seq<nat>, m: seq<nat>, saved: seq<seq<nat>>, w: seq<int>, n: nat, avg: int,
                    goal: int, missed: bool)
    requires n > 0 && Gone(t, first, m, w, n, avg, missed) && saved == Lows(t.maps, w, n, |t.maps|)
    requires 0 < |saved| <= LB_MAX_NUM_ITER + 1
    requires EndsAt(t.maps, w, n, goal, |t.maps| - 1) && GoesOnTo(t.maps, w, n, goal, |t.maps| - 1)
    ensures |first| == |w| && Finished(t, first, saved[|saved| - 1], saved, w, n, avg, goal, missed)
  {
    LowsImprove(t.maps, w, n, |t.maps|);
  }

  /** One round of the outer loop. */
  method Round(partitions: array<Partition>, cores: array<Core>, newReta: array<nat>, avg: int, goal: int, max: int,
               prev: int, epoch: int, numIter: nat, missed: bool, ghost w: seq<int>, ghost trees: seq<Tree>,
               ghost first: seq<nat>, ghost t: Trail, ghost saved: seq<seq<nat>>)
    returns (stop: bool, max': int, epoch': int, numIter': nat, missed': bool, ghost trees': seq<Tree>, ghost t': Trail,
             ghost saved': seq<seq<nat>>)
    requires newReta.Length == partitions.Length && cores.Length > 0 && Total(w, |w|) < INT32_MAX
    requires 0 <= avg <= goal && |first| == |w|
    requires Spread(Mapping(partitions[..]), partitions[..], cores[..], w, trees)
    requires Gone(t, first, Mapping(partitions[..]), w, cores.Length, avg, missed)
    requires Examining(t.maps, saved, w, cores.Length, goal, max, prev, epoch) && numIter == |saved|
    requires saved != [] ==> saved[|saved| - 1] == newReta[..]
    modifies partitions, cores, newReta
    ensures Spread(Mapping(partitions[..]), partitions[..], cores[..], w, trees')
    ensures numIter' == |saved'| && saved' != [] && saved'[|saved'| - 1] == newReta[..]
    ensures stop ==> Finished(t', first, newReta[..], saved', w, cores.Length, avg, goal, missed')
    ensures !stop ==> Gone(t', first, Mapping(partitions[..]), w, cores.Length, avg, missed')
    ensures !stop ==> Examining(t'.maps, saved', w, cores.Length, goal, max', max, epoch')
    ensures !stop ==> numIter <= LB_MAX_NUM_ITER
    ensures !stop ==> numIter < numIter' || (numIter == numIter' && epoch == 0 < epoch')
  {
    trees', t', missed' := trees, t, missed;
    stop, max', epoch', numIter', saved' :=
      Examine(partitions, cores, newReta, goal, max, prev, epoch, numIter, w, trees, first, t, avg, missed, saved);
    if stop {
      ClimbIsOver(t, first, Mapping(partitions[..]), saved', w, cores.Length, avg, goal, missed);
      return;
    }
    missed', trees', t' :=
      MoveAgain(partitions, cores, avg, missed, w, trees, first, t, saved', goal, max', max, epoch');
  }

  /** The outer loop of `lb_rebalancing`.  `trail` records the mappings that it goes through. */
  method Iterate(partitions: array<Partition>, cores: array<Core>, newReta: array<nat>, avg: int, allowed: int,
                 ghost w: seq<int>, ghost trees0: seq<Tree>)
    returns (numIter: nat, missed: bool, ghost saved: seq<seq<nat>>, ghost trail: Trail)
    requires newReta.Length == partitions.Length && cores.Length > 0 && avg >= 0 && allowed >= 0
    requires Total(w, |w|) < INT32_MAX && OnCores(Mapping(partitions[..]), cores.Length)
    requires Spread(Mapping(partitions[..]), partitions[..], cores[..], w, trees0)
    modifies partitions, cores, newReta
    ensures HasLoads(partitions[..], w) && numIter == |saved|
    ensures Finished(trail, old(Mapping(partitions[..])), newReta[..], saved, w, cores.Length, avg, allowed + avg,
                     missed)
  {
    ghost var first := Mapping(partitions[..]);
    ghost var trees := trees0;
    var epoch := 0;
    var max, prev := INT32_MAX, INT32_MAX;
    numIter, missed, saved, trail := 0, false, [], Trail([first], [], []);
    while true
      invariant Spread(Mapping(partitions[..]), partitions[..], cores[..], w, trees)
      invariant numIter == |saved| && (saved != [] ==> saved[|saved| - 1] == newReta[..])
      invariant Gone(trail, first, Mapping(partitions[..]), w, cores.Length, avg, missed)
      invariant Examining(trail.maps, saved, w, cores.Length, allowed + avg, max, prev, epoch)
      decreases LB_MAX_NUM_ITER + 1 - numIter, if epoch == 0 then 1 else 0
    {
      var stop, max';
      stop, max', epoch, numIter, missed, trees, trail, saved :=
        Round(partitions, cores, newReta, avg, allowed + avg, max, prev, epoch, numIter, missed, w, trees, first, trail,
              saved);
      max, prev := max', max;
      if stop {
        return;
      }
    }
  }
}
