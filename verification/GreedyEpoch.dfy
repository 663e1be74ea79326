/** One epoch of the load balancer's moves, on nothing but the loads of the partitions of each core. */
module GreedyEpoch {

  /** The load that the search looks for: the greatest one not above the target, else the least one. */
  predicate IsPick(s: multiset<int>, target: int, x: int) {
    && x in s
    && forall y :: y in s ==> if x <= target then y <= target ==> y <= x else x <= y
  }

  lemma PickIsUnique(s: multiset<int>, target: int, x: int, y: int)
    requires IsPick(s, target, x) && IsPick(s, target, y)
    ensures x == y
  {
  }

  lemma NoMembers(s: multiset<int>)
    requires forall x :: x !in s
    ensures s == multiset{}
  {
    forall x ensures s[x] == 0 {
      assert x !in s;
    }
  }

  lemma {:induction false} PickExists(s: multiset<int>, target: int)
    requires s != multiset{}
    ensures exists x :: IsPick(s, target, x)
  {
    if forall x :: x !in s {
      NoMembers(s);
    }
    var x :| x in s;
    var rest := s - multiset{x};
    if rest == multiset{} {
      assert forall y :: y in s ==> y in rest || y == x;
      assert IsPick(s, target, x);
    } else {
      PickExists(rest, target);
      var y :| IsPick(rest, target, y);
      assert forall z :: z in s ==> z in rest || z == x;
      assert y in s && (IsPick(s, target, x) || IsPick(s, target, y));
    }
  }

  ghost function Pick(s: multiset<int>, target: int): (x: int)
    requires s != multiset{}
    ensures IsPick(s, target, x)
  {
    PickExists(s, target);
    var x :| IsPick(s, target, x);
    x
  }

  /** The cores in the order of their loads: for each core its load and the positive loads of its partitions. */
  datatype Cores = Cores(loads: seq<int>, parts: seq<multiset<int>>)

  predicate Shaped(s: Cores) {
    |s.loads| == |s.parts|
  }

  function Moved(s: Cores, ol: nat, ul: nat, x: int): (s': Cores)
    requires Shaped(s) && ol < |s.loads| && ul < |s.loads|
    ensures Shaped(s') && |s'.loads| == |s.loads|
  {
    if ol == ul then s
    else
      Cores(s.loads[ol := s.loads[ol] - x][ul := s.loads[ul] + x],
            s.parts[ol := s.parts[ol] - multiset{x}][ul := s.parts[ul] + multiset{x}])
  }

  /** The search for a partition meets a core without any, or the epoch goes on with other loads, or at
      another overloaded or underloaded core. */
  datatype Outcome = NoPart | GoesOn(s: Cores, ol: int, ul: nat)

  /** The core to take from: the next one when this one has fallen to the average. */
  function Giver(s: Cores, avg: int, ol: nat): (ol1: int)
    requires ol < |s.loads|
  {
    if s.loads[ol] <= avg then ol - 1 else ol
  }

  /** Fill up core `ul`, to which `missing` is missing, from core `ol`: move the best fitting partition,
      unless it is the core's only one. */
  ghost function Give(s: Cores, ol: nat, ul: nat, missing: int): Outcome
    requires Shaped(s) && ol < |s.loads| && ul < |s.loads|
  {
    if s.parts[ol] == multiset{} then NoPart
    else
      var x := Pick(s.parts[ol], missing);
      if x == s.loads[ol] then GoesOn(s, ol - 1, ul) else GoesOn(Moved(s, ol, ul, x), ol, ul)
  }

  ghost function Next(s: Cores, avg: int, ol: nat, ul: nat): Outcome
    requires Shaped(s) && ul < ol < |s.loads|
  {
    if s.loads[ul] >= avg then GoesOn(s, Giver(s, avg, ol), ul + 1)
    else Give(s, Giver(s, avg, ol), ul, avg - s.loads[ul])
  }

  /** How the epoch goes on from the overloaded core `ol` and the underloaded one `ul`: to its end, or until it
      meets a core without partitions. */
  ghost function Course(s: Cores, avg: int, first: nat, ol: int, ul: nat): (r: Outcome)
    requires Shaped(s) && first < |s.loads| && ol < |s.loads|
    ensures r.GoesOn? ==> Shaped(r.s) && |r.s.loads| == |s.loads|
    decreases ol, first - ul, if 0 <= ol < |s.parts| then |s.parts[ol]| else 0
  {
    if ol < first || ul >= first then GoesOn(s, ol, ul)
    else
      match Next(s, avg, ol, ul)
      case NoPart => NoPart
      case GoesOn(s', ol', ul') => Course(s', avg, first, ol', ul')
  }

  /** The first core that is overloaded. */
  predicate IsFirst(loads: seq<int>, avg: int, first: nat) {
    first < |loads| && loads[first] > avg && forall q :: 0 <= q < first ==> loads[q] <= avg
  }

  /** A whole epoch. */
  ghost function Epoch(s: Cores, avg: int): (r: Outcome)
    requires Shaped(s)
    ensures r.GoesOn? ==> Shaped(r.s) && |r.s.loads| == |s.loads|
  {
    if exists first: nat :: IsFirst(s.loads, avg, first) then
      var first: nat :| IsFirst(s.loads, avg, first);
      Course(s, avg, first, |s.loads| - 1, 0)
    else GoesOn(s, |s.loads| - 1, 0)
  }

  lemma EpochIs(s: Cores, avg: int, first: nat)
    requires Shaped(s) && IsFirst(s.loads, avg, first)
    ensures Epoch(s, avg) == Course(s, avg, first, |s.loads| - 1, 0)
  {
    forall k: nat | IsFirst(s.loads, avg, k) ensures k == first {
    }
  }

  // ---- What an epoch achieves

  /** Core `q` is not overloaded any more, or a single partition makes up all of its load. */
  predicate Relieved(s: Cores, avg: int, q: nat)
    requires Shaped(s) && q < |s.loads|
  {
    s.loads[q] <= avg || s.loads[q] in s.parts[q]
  }

  /** The cores below `ul` have been filled up, those above `ol` have been relieved. */
  ghost predicate SoFar(s: Cores, avg: int, first: nat, ol: int, ul: nat)
    requires Shaped(s) && first < |s.loads|
  {
    && ul <= first && ol < |s.loads|
    && (ol >= first ==> forall q :: 0 <= q < ul ==> s.loads[q] >= avg)
    && (forall q: nat {:trigger Relieved(s, avg, q)} :: first <= q < |s.loads| && q > ol ==> Relieved(s, avg, q))
  }

  lemma NextKeepsSoFar(s: Cores, avg: int, first: nat, ol: nat, ul: nat)
    requires Shaped(s) && ul < first <= ol < |s.loads| && SoFar(s, avg, first, ol, ul)
    ensures var r := Next(s, avg, ol, ul);
            r.GoesOn? ==> Shaped(r.s) && |r.s.loads| == |s.loads| && SoFar(r.s, avg, first, r.ol, r.ul)
  {
    var r := Next(s, avg, ol, ul);
    if r.GoesOn? {
      forall q: nat | first <= q < |s.loads| && q > r.ol ensures Relieved(r.s, avg, q) {
        assert q > ol ==> Relieved(s, avg, q);
      }
    }
  }

  lemma {:induction false} CourseSettles(s: Cores, avg: int, first: nat, ol: int, ul: nat)
    requires Shaped(s) && first < |s.loads| && SoFar(s, avg, first, ol, ul)
    ensures var r := Course(s, avg, first, ol, ul);
            r.GoesOn? ==> Settled(r.s, avg, first)
    decreases ol, first - ul, if 0 <= ol < |s.parts| then |s.parts[ol]| else 0
  {
    if ol >= first && ul < first {
      NextKeepsSoFar(s, avg, first, ol, ul);
      match Next(s, avg, ol, ul)
      case NoPart =>
      case GoesOn(s', ol', ul') => CourseSettles(s', avg, first, ol', ul');
    }
  }

  /** All cores that were not overloaded carry the average, or all overloaded ones are relieved. */
  ghost predicate Settled(s: Cores, avg: int, first: nat) {
    && Shaped(s) && first < |s.loads|
    && (|| (forall q :: 0 <= q < first ==> s.loads[q] >= avg)
        || forall q: nat {:trigger Relieved(s, avg, q)} :: first <= q < |s.loads| ==> Relieved(s, avg, q))
  }

  lemma EpochSettles(s: Cores, avg: int, first: nat)
    requires Shaped(s) && IsFirst(s.loads, avg, first) && Epoch(s, avg).GoesOn?
    ensures Settled(Epoch(s, avg).s, avg, first)
  {
    EpochIs(s, avg, first);
    CourseSettles(s, avg, first, |s.loads| - 1, 0);
  }

  /** The course `c` has met a core without partitions, or goes on like this. */
  ghost predicate Onward(c: Outcome, s: Cores, avg: int, first: nat, ol: int, ul: nat, met: bool) {
    if met then c.NoPart? else Shaped(s) && first < |s.loads| && ol < |s.loads| && Course(s, avg, first, ol, ul) == c
  }

  lemma StillOnward(c: Outcome, s: Cores, avg: int, first: nat, ol: nat, ul: nat, met: bool, s': Cores, ol': int,
                    ul': nat, lacking: bool)
    requires Shaped(s) && ul < first <= ol < |s.loads| && Onward(c, s, avg, first, ol, ul, met)
    requires Next(s, avg, ol, ul) == if lacking then NoPart else GoesOn(s', ol', ul')
    ensures Onward(c, s', avg, first, ol', ul', met || lacking)
  {
  }

  lemma PickIs(s: multiset<int>, target: int, x: int)
    requires IsPick(s, target, x)
    ensures s != multiset{} && Pick(s, target) == x
  {
    PickIsUnique(s, target, x, Pick(s, target));
  }
}
