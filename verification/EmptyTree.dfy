/** Which calls of `lb_rebalancing` search the empty tree of an idle core, after which the source goes on
    with `partitions[-1]`: none with at most one idle core, and some with any greater number of them. */
module EmptyTree {
  import opened Arithmetic
  import opened Bst
  import opened Rebalancer

  function IdleCores(m: seq<nat>, w: seq<int>, n: nat): set<nat>
    requires |m| == |w|
  {
    set c: nat | c < n && Idle(m, w, c)
  }

  lemma TwoIdleCores(m: seq<nat>, w: seq<int>, n: nat)
    requires |m| == |w| && TwoIdle(m, w, n)
    ensures |IdleCores(m, w, n)| >= 2
  {
    var a: nat, b: nat :| a < n && b < n && a != b && Idle(m, w, a) && Idle(m, w, b);
    assert {a, b} <= IdleCores(m, w, n);
    Within({a, b}, IdleCores(m, w, n));
  }

  lemma {:induction false} Within(s: set<nat>, t: set<nat>)
    requires s <= t
    ensures |s| <= |t|
  {
    if s != {} {
      var x :| x in s;
      Within(s - {x}, t - {x});
    }
  }

  /** A call of `lb_rebalancing` for partitions with loads `w`, mapped by `m` to `n` cores.  `missed` says
      that it searches an empty tree. */
  method Rebalance(w: seq<int>, m: seq<nat>, n: nat) returns (improved: bool, missed: bool, reta: seq<nat>)
    requires 0 < n <= |m| == |w| && OnCores(m, n) && NonNegative(w) && Total(w, |w|) < INT32_MAX
    ensures |reta| == |m| && OnCores(reta, n)
    ensures improved <==> MaxLoad(reta, w, n) < MaxLoad(m, w, n)
    ensures !improved ==> reta == m
    ensures missed ==> |IdleCores(m, w, n)| >= 2 && Unbalanced(m, w, n)
    ensures Unbalanced(m, w, n) && Trapped(m, w, n, Total(w, |w|) / n) ==> missed
    ensures Unbalanced(m, w, n) && GreedyImproves(m, w, n, Total(w, |w|) / n) ==> improved
  {
    var partitions := new Partition[|m|](i requires 0 <= i < |m| == |w| => Partition(w[i], m[i], -1, -1));
    var cores := new Core[n](c requires 0 <= c && |m| == |w| => Core(LoadOf(m, w, c), -1, c));
    assert Mapping(partitions[..]) == m;
    ghost var saved, trail;
    improved, missed, saved, trail := LbRebalancing(partitions, cores, w);
    if missed {
      TwoIdleCores(m, w, n);
    }
    reta := seq(|m|, i requires 0 <= i < partitions.Length reads partitions => partitions[i].core);
    assert reta == Mapping(partitions[..]);
  }

  // ---- Four cores

  function Share(m: seq<nat>, w: seq<int>, c: nat, i: nat): int
    requires i < |m| == |w|
  {
    if m[i] == c then w[i] else 0
  }

  lemma FourShares(m: seq<nat>, w: seq<int>, c: nat)
    requires |m| == |w| == 4
    ensures LoadOf(m, w, c) == Share(m, w, c, 0) + Share(m, w, c, 1) + Share(m, w, c, 2) + Share(m, w, c, 3)
    ensures Total(w, 4) == w[0] + w[1] + w[2] + w[3]
  {
    assert LoadUpTo(m, w, c, 1) == LoadUpTo(m, w, c, 0) + Share(m, w, c, 0);
    assert LoadUpTo(m, w, c, 2) == LoadUpTo(m, w, c, 1) + Share(m, w, c, 1);
    assert LoadUpTo(m, w, c, 3) == LoadUpTo(m, w, c, 2) + Share(m, w, c, 2);
    assert Total(w, 1) == Total(w, 0) + w[0] && Total(w, 2) == Total(w, 1) + w[1];
    assert Total(w, 3) == Total(w, 2) + w[2];
  }

  /** Cores 0 and 1 are idle, core 2 carries 26 and 24, core 3 carries 60; the average is 27. */
  lemma FourCoresTrap(m: seq<nat>, w: seq<int>)
    requires m == [0, 2, 2, 3] && w == [0, 26, 24, 60]
    ensures Total(w, 4) == 110 && Unbalanced(m, w, 4) && Trapped(m, w, 4, 27)
  {
    FourShares(m, w, 0);
    FourShares(m, w, 1);
    FourShares(m, w, 2);
    FourShares(m, w, 3);
    assert Idle(m, w, 0) && Idle(m, w, 1) && !Idle(m, w, 2) && !Idle(m, w, 3);
    assert Trap(m, w, 4, 27, 2);
  }

  /** The source reads `partitions[-1]` for these loads. */
  method FourCores() returns (missed: bool)
    ensures missed
  {
    var m: seq<nat>, w := [0, 2, 2, 3], [0, 26, 24, 60];
    FourCoresTrap(m, w);
    var improved, reta;
    improved, missed, reta := Rebalance(w, m, 4);
  }

  // ---- Any number of idle cores from two on

  /** `k` idle cores, one with two partitions of load 2, one with a partition of load `3 * k + 2`. */
  function IdleMapping(k: nat): (m: seq<nat>)
    requires k >= 2
  {
    [k, k, k + 1] + seq(k - 1, _ => 0)
  }

  function IdleLoads(k: nat): (w: seq<int>)
    requires k >= 2
  {
    [2, 2, 3 * k + 2] + seq(k - 1, _ => 0)
  }

  lemma {:induction false} LoadsAre(k: nat, c: nat, j: nat)
    requires k >= 2 && 3 <= j <= k + 2
    ensures LoadUpTo(IdleMapping(k), IdleLoads(k), c, j) == if c == k then 4 else if c == k + 1 then 3 * k + 2 else 0
    ensures Total(IdleLoads(k), j) == 3 * (k + 2)
  {
    var m, w := IdleMapping(k), IdleLoads(k);
    if j > 3 {
      LoadsAre(k, c, j - 1);
    } else {
      assert LoadUpTo(m, w, c, 1) == if c == k then 2 else 0;
      assert LoadUpTo(m, w, c, 2) == if c == k then 4 else 0;
      assert Total(w, 1) == 2 && Total(w, 2) == 4;
    }
  }

  lemma IdleTrap(k: nat)
    requires k >= 2
    ensures Trapped(IdleMapping(k), IdleLoads(k), k + 2, 3)
    ensures forall c: nat {:trigger Idle(IdleMapping(k), IdleLoads(k), c)} ::
              c < k + 2 ==> (Idle(IdleMapping(k), IdleLoads(k), c) <==> c < k)
  {
    var m, w := IdleMapping(k), IdleLoads(k);
    forall c: nat | c < k + 2
      ensures LoadOf(m, w, c) == if c == k then 4 else if c == k + 1 then 3 * k + 2 else 0
    {
      LoadsAre(k, c, k + 2);
    }
    assert Idle(m, w, 0) && Idle(m, w, 1);
    assert OnlyWhole(m, w, k + 1);
    assert Trap(m, w, k + 2, 3, k);
  }

  function IdsBelow(k: nat): (s: set<nat>)
    ensures |s| == k && forall c: nat :: c in s <==> c < k
  {
    if k == 0 then {} else IdsBelow(k - 1) + {k - 1}
  }

  lemma IdleUnbalanced(k: nat, m: seq<nat>, w: seq<int>)
    requires k >= 2 && |m| == |w| == k + 2 && Total(w, k + 2) == 3 * (k + 2) && LoadOf(m, w, k + 1) == 3 * k + 2
    ensures Total(w, |w|) / (k + 2) == 3 && Unbalanced(m, w, k + 2)
  {
    RemainderUnique(3 * (k + 2), k + 2, 3, 0);
    RemainderUnique(k + 2, k + 2, 1, 0);
    assert 3 / ((k + 2) / (k + 2)) == 3;
  }

  /** `Rebalance` cannot rule out the search of an empty tree for any number of idle cores above one. */
  lemma IdleCoresAre(k: nat)
    requires k >= 2
    ensures var m, w := IdleMapping(k), IdleLoads(k);
            && Unbalanced(m, w, k + 2) && Trapped(m, w, k + 2, Total(w, |w|) / (k + 2))
            && |IdleCores(m, w, k + 2)| == k
  {
    LoadsAre(k, k + 1, k + 2);
    IdleTrap(k);
    IdleUnbalanced(k, IdleMapping(k), IdleLoads(k));
    assert IdleCores(IdleMapping(k), IdleLoads(k), k + 2) == IdsBelow(k);
  }

  /** So `Rebalance` allows as few idle cores as a call that searches an empty tree can have. */
  method ManyIdleCores(k: nat) returns (missed: bool, w: seq<int>, m: seq<nat>)
    requires k >= 2 && 3 * (k + 2) < INT32_MAX
    ensures |m| == |w| == k + 2 && OnCores(m, k + 2) && NonNegative(w) && Total(w, |w|) == 3 * (k + 2)
    ensures |IdleCores(m, w, k + 2)| == k && missed
  {
    w, m := IdleLoads(k), IdleMapping(k);
    LoadsAre(k, 0, k + 2);
    IdleCoresAre(k);
    var improved, reta;
    improved, missed, reta := Rebalance(w, m, k + 2);
  }
}
