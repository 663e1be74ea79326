/** The search trees of deps/vigor/nf-lb/bst.c, whose links are indexes into the array of partitions.

    A ghost `Tree` says what the links from a root represent.  Smaller loads are on the left, equal and
    greater ones on the right. */
module Bst {
  datatype Partition = Partition(load: int, core: nat, left: int, right: int)

  datatype Core = Core(load: int, root: int, ind: nat)

  datatype Tree = Leaf | Node(left: Tree, ind: nat, right: Tree)

  /** The way from the root down to a subtree, innermost step first. */
  datatype Path = Top | GoLeft(up: Path, ind: nat, right: Tree) | GoRight(up: Path, left: Tree, ind: nat)

  function Members(t: Tree): set<nat> {
    match t
    case Leaf => {}
    case Node(l, i, r) => Members(l) + {i} + Members(r)
  }

  /** No index occurs twice. */
  predicate Proper(t: Tree) {
    match t
    case Leaf => true
    case Node(l, i, r) =>
      Proper(l) && Proper(r) && i !in Members(l) && i !in Members(r) && Members(l) !! Members(r)
  }

  /** Smaller loads on the left, equal and greater ones on the right. */
  ghost predicate Ordered(t: Tree, w: seq<int>) {
    match t
    case Leaf => true
    case Node(l, i, r) =>
      && Ordered(l, w) && Ordered(r, w) && i < |w|
      && (forall x :: x in Members(l) ==> x < |w| && w[x] < w[i])
      && (forall x :: x in Members(r) ==> x < |w| && w[x] >= w[i])
  }

  /** The links that start at `x` represent `t`. */
  predicate IsTree(p: seq<Partition>, x: int, t: Tree)
    decreases t
  {
    match t
    case Leaf => x < 0
    case Node(l, i, r) => x == i < |p| && IsTree(p, p[i].left, l) && IsTree(p, p[i].right, r)
  }

  predicate HasLoads(p: seq<Partition>, w: seq<int>) {
    |p| == |w| && forall i :: 0 <= i < |p| ==> p[i].load == w[i]
  }

  predicate SameLinks(p: seq<Partition>, q: seq<Partition>, x: nat) {
    x < |p| && x < |q| ==> q[x].left == p[x].left && q[x].right == p[x].right
  }

  lemma {:induction false} TreeFrame(p: seq<Partition>, q: seq<Partition>, x: int, t: Tree)
    requires IsTree(p, x, t) && |q| == |p| && forall y :: y in Members(t) ==> SameLinks(p, q, y)
    ensures IsTree(q, x, t)
    decreases t
  {
    if t.Node? {
      assert SameLinks(p, q, t.ind);
      TreeFrame(p, q, p[t.ind].left, t.left);
      TreeFrame(p, q, p[t.ind].right, t.right);
    }
  }

  // ---- Paths

  function Plug(path: Path, t: Tree): Tree {
    match path
    case Top => t
    case GoLeft(up, i, r) => Plug(up, Node(t, i, r))
    case GoRight(up, l, i) => Plug(up, Node(l, i, t))
  }

  function OnPath(path: Path): set<nat> {
    match path
    case Top => {}
    case GoLeft(up, i, r) => OnPath(up) + {i} + Members(r)
    case GoRight(up, l, i) => OnPath(up) + {i} + Members(l)
  }

  predicate ProperPath(path: Path) {
    match path
    case Top => true
    case GoLeft(up, i, r) =>
      ProperPath(up) && Proper(r) && i !in Members(r) && ({i} + Members(r)) !! OnPath(up)
    case GoRight(up, l, i) =>
      ProperPath(up) && Proper(l) && i !in Members(l) && ({i} + Members(l)) !! OnPath(up)
  }

  /** The links from `root` follow the path to a link with value `x`. */
  predicate IsPath(p: seq<Partition>, root: int, x: int, path: Path)
    decreases path
  {
    match path
    case Top => x == root
    case GoLeft(up, i, r) =>
      i < |p| && p[i].left == x && IsTree(p, p[i].right, r) && IsPath(p, root, i, up)
    case GoRight(up, l, i) =>
      i < |p| && p[i].right == x && IsTree(p, p[i].left, l) && IsPath(p, root, i, up)
  }

  lemma {:induction false} PlugIsTree(p: seq<Partition>, root: int, x: int, path: Path, t: Tree)
    requires IsPath(p, root, x, path) && IsTree(p, x, t)
    ensures IsTree(p, root, Plug(path, t))
    decreases path
  {
    match path
    case Top =>
    case GoLeft(up, i, r) => PlugIsTree(p, root, i, up, Node(t, i, r));
    case GoRight(up, l, i) => PlugIsTree(p, root, i, up, Node(l, i, t));
  }

  lemma {:induction false} PlugMembers(path: Path, t: Tree)
    ensures Members(Plug(path, t)) == OnPath(path) + Members(t)
    ensures Proper(Plug(path, t)) <==> Proper(t) && ProperPath(path) && Members(t) !! OnPath(path)
  {
    match path
    case Top =>
    case GoLeft(up, i, r) => PlugMembers(up, Node(t, i, r));
    case GoRight(up, l, i) => PlugMembers(up, Node(l, i, t));
  }

  lemma {:induction false} PathFrame(p: seq<Partition>, q: seq<Partition>, root: int, x: int, path: Path)
    requires IsPath(p, root, x, path) && |q| == |p|
    requires forall y :: y in OnPath(path) ==> SameLinks(p, q, y)
    ensures IsPath(q, root, x, path)
    decreases path
  {
    match path
    case Top =>
    case GoLeft(up, i, r) =>
      assert SameLinks(p, q, i);
      TreeFrame(p, q, p[i].right, r);
      PathFrame(p, q, root, i, up);
    case GoRight(up, l, i) =>
      assert SameLinks(p, q, i);
      TreeFrame(p, q, p[i].left, l);
      PathFrame(p, q, root, i, up);
  }

  /** Where the link at the end of the path is stored: in the root pointer or in the parent. */
  function Relinked(p: seq<Partition>, path: Path, y: int): seq<Partition> {
    match path
    case Top => p
    case GoLeft(_, i, _) => if i < |p| then p[i := p[i].(left := y)] else p
    case GoRight(_, _, i) => if i < |p| then p[i := p[i].(right := y)] else p
  }

  function NewRoot(root: int, path: Path, y: int): int {
    if path.Top? then y else root
  }

  lemma RelinkPath(p: seq<Partition>, root: int, x: int, path: Path, y: int)
    requires IsPath(p, root, x, path) && ProperPath(path)
    ensures IsPath(Relinked(p, path, y), NewRoot(root, path, y), y, path)
  {
    var q := Relinked(p, path, y);
    match path
    case Top =>
    case GoLeft(up, i, r) =>
      TreeFrame(p, q, p[i].right, r);
      PathFrame(p, q, root, i, up);
    case GoRight(up, l, i) =>
      TreeFrame(p, q, p[i].left, l);
      PathFrame(p, q, root, i, up);
  }

  /** Replacing the subtree at the end of the path by another one that is linked up elsewhere. */
  lemma Replace(p: seq<Partition>, root: int, x: int, path: Path, y: int, t: Tree)
    requires IsPath(p, root, x, path) && ProperPath(path)
    requires IsTree(p, y, t) && Members(t) !! OnPath(path)
    ensures IsTree(Relinked(p, path, y), NewRoot(root, path, y), Plug(path, t))
  {
    RelinkPath(p, root, x, path, y);
    TreeFrame(p, Relinked(p, path, y), y, t);
    PlugIsTree(Relinked(p, path, y), NewRoot(root, path, y), y, path, t);
  }

  // ---- Insertion

  function Inserted(t: Tree, i: nat, w: seq<int>): Tree
    requires i < |w| && forall x :: x in Members(t) ==> x < |w|
  {
    match t
    case Leaf => Node(Leaf, i, Leaf)
    case Node(l, j, r) =>
      assert j in Members(t);
      if w[i] >= w[j] then Node(l, j, Inserted(r, i, w)) else Node(Inserted(l, i, w), j, r)
  }

  /** Insertion keeps the order and adds exactly the given index. */
  lemma {:induction false} InsertedIsOrdered(t: Tree, i: nat, w: seq<int>)
    requires i < |w| && Ordered(t, w) && Proper(t) && i !in Members(t)
    requires forall x :: x in Members(t) ==> x < |w|
    ensures Members(Inserted(t, i, w)) == Members(t) + {i}
    ensures Ordered(Inserted(t, i, w), w) && Proper(Inserted(t, i, w))
  {
    if t.Node? {
      if w[i] >= w[t.ind] {
        InsertedIsOrdered(t.right, i, w);
      } else {
        InsertedIsOrdered(t.left, i, w);
      }
    }
  }

  // ---- Deletion

  function Least(t: Tree): nat
    requires t.Node?
  {
    if t.left.Leaf? then t.ind else Least(t.left)
  }

  function WithoutLeast(t: Tree): Tree
    requires t.Node?
  {
    if t.left.Leaf? then t.right else Node(WithoutLeast(t.left), t.ind, t.right)
  }

  lemma {:induction false} LeastIsLeast(t: Tree, w: seq<int>)
    requires t.Node? && Ordered(t, w) && Proper(t)
    ensures Least(t) in Members(t) && Members(WithoutLeast(t)) == Members(t) - {Least(t)}
    ensures Least(t) < |w| && forall x :: x in Members(t) ==> x < |w| && w[Least(t)] <= w[x]
    ensures Ordered(WithoutLeast(t), w) && Proper(WithoutLeast(t))
  {
    if t.left.Node? {
      LeastIsLeast(t.left, w);
    }
  }

  /** The tree that takes the place of `t` when its top is deleted: one child when the other is missing,
      else the in-order successor moves up. */
  function WithoutTop(t: Tree): Tree
    requires t.Node?
  {
    if t.left.Leaf? then t.right
    else if t.right.Leaf? then t.left
    else Node(t.left, Least(t.right), WithoutLeast(t.right))
  }

  function Deleted(t: Tree, i: nat, w: seq<int>): Tree
    requires i < |w| && forall x :: x in Members(t) ==> x < |w|
  {
    match t
    case Leaf => Leaf
    case Node(l, j, r) =>
      assert j in Members(t);
      if i == j then WithoutTop(t)
      else if w[j] > w[i] then Node(Deleted(l, i, w), j, r)
      else Node(l, j, Deleted(r, i, w))
  }

  lemma WithoutTopIsOrdered(t: Tree, w: seq<int>)
    requires t.Node? && Ordered(t, w) && Proper(t)
    ensures Members(WithoutTop(t)) == Members(t) - {t.ind}
    ensures Ordered(WithoutTop(t), w) && Proper(WithoutTop(t))
  {
    if t.left.Node? && t.right.Node? {
      LeastIsLeast(t.right, w);
    }
  }

  /** Deletion keeps the order and removes exactly the given index. */
  lemma {:induction false} DeletedIsOrdered(t: Tree, i: nat, w: seq<int>)
    requires i < |w| && Ordered(t, w) && Proper(t)
    requires forall x :: x in Members(t) ==> x < |w|
    ensures Members(Deleted(t, i, w)) == Members(t) - {i}
    ensures Ordered(Deleted(t, i, w), w) && Proper(Deleted(t, i, w))
  {
    if t.Node? {
      if i == t.ind {
        WithoutTopIsOrdered(t, w);
      } else if w[t.ind] > w[i] {
        DeletedIsOrdered(t.left, i, w);
      } else {
        DeletedIsOrdered(t.right, i, w);
      }
    }
  }

  // ---- The operations on the array

  /** Core `k`'s root starts the tree `t`, which is a search tree. */
  ghost predicate Rooted(p: seq<Partition>, root: int, t: Tree, w: seq<int>) {
    IsTree(p, root, t) && Proper(t) && Ordered(t, w) && forall x :: x in Members(t) ==> x < |w|
  }

  /** Only links change, and only those of the given members. */
  ghost predicate OnlyLinks(p: seq<Partition>, q: seq<Partition>, s: set<nat>) {
    && |q| == |p|
    && (forall x: nat :: x < |p| ==> q[x] == p[x].(left := q[x].left, right := q[x].right))
    && (forall x: nat :: x < |p| && x !in s ==> q[x] == p[x])
  }

  lemma RelinkedOnlyLinks(p: seq<Partition>, root: int, x: int, path: Path, y: int)
    requires IsPath(p, root, x, path)
    ensures OnlyLinks(p, Relinked(p, path, y), OnPath(path))
  {
  }

  lemma OnlyLinksThen(p: seq<Partition>, q: seq<Partition>, r: seq<Partition>, s: set<nat>, s': set<nat>)
    requires OnlyLinks(p, q, s) && OnlyLinks(q, r, s')
    ensures OnlyLinks(p, r, s + s')
  {
  }

  /** A new leaf at the end of the path. */
  lemma AttachOk(p: seq<Partition>, root: int, x: int, path: Path, ind: nat)
    requires ind < |p| && p[ind].left < 0 && p[ind].right < 0 && x < 0
    requires IsPath(p, root, x, path) && Proper(Plug(path, Leaf)) && ind !in Members(Plug(path, Leaf))
    ensures var q := Relinked(p, path, ind);
            && IsTree(q, NewRoot(root, path, ind), Plug(path, Node(Leaf, ind, Leaf)))
            && OnlyLinks(p, q, Members(Plug(path, Leaf)))
  {
    PlugMembers(path, Leaf);
    Replace(p, root, x, path, ind, Node(Leaf, ind, Leaf));
    RelinkedOnlyLinks(p, root, x, path, ind);
  }

  /** `insert`. */
  method Insert(partitions: array<Partition>, cores: array<Core>, k: nat, ind: nat, ghost t: Tree,
                ghost w: seq<int>)
    requires k < cores.Length && ind < partitions.Length && HasLoads(partitions[..], w)
    requires Rooted(partitions[..], cores[k].root, t, w) && ind !in Members(t)
    modifies partitions, cores
    ensures OnlyLinks(old(partitions[..]), partitions[..], Members(t) + {ind})
    ensures cores[..] == old(cores[..])[k := old(cores[k]).(root := cores[k].root)]
    ensures Rooted(partitions[..], cores[k].root, if w[ind] <= 0 then t else Inserted(t, ind, w), w)
  {
    var root := cores[k].root;
    if partitions[ind].load <= 0 {
      return;
    }
    ghost var p := partitions[..];
    partitions[ind] := partitions[ind].(left := -1, right := -1);
    label Cleared:
    TreeFrame(p, partitions[..], root, t);
    InsertedIsOrdered(t, ind, w);
    if root < 0 {
      assert t == Leaf && IsTree(partitions[..], -1, Leaf);
      cores[k] := cores[k].(root := ind);
      return;
    }
    Descend(partitions, root, ind, t, w);
    OnlyLinksThen(p, old@Cleared(partitions[..]), partitions[..], {ind}, Members(t));
  }

  /** The loop of `insert`. */
  method Descend(partitions: array<Partition>, start: nat, ind: nat, ghost t: Tree, ghost w: seq<int>)
    requires ind < |w| && HasLoads(partitions[..], w) && partitions[ind].left < 0 && partitions[ind].right < 0
    requires Rooted(partitions[..], start, t, w) && t.Node? && ind !in Members(t)
    modifies partitions
    ensures OnlyLinks(old(partitions[..]), partitions[..], Members(t))
    ensures IsTree(partitions[..], start, Inserted(t, ind, w))
  {
    var root := start;
    ghost var path, sub := Top, t;
    while true
      invariant partitions[..] == old(partitions[..])
      invariant IsTree(partitions[..], root, sub) && sub.Node? && IsPath(partitions[..], start, root, path)
      invariant Plug(path, sub) == t && forall x :: x in Members(sub) ==> x in Members(t)
      invariant Inserted(t, ind, w) == Plug(path, Inserted(sub, ind, w))
      decreases sub
    {
      var next;
      if partitions[ind].load >= partitions[root].load {
        next := partitions[root].right;
        path, sub := GoRight(path, sub.left, sub.ind), sub.right;
        if next < 0 {
          AttachOk(partitions[..], start, next, path, ind);
          partitions[root] := partitions[root].(right := ind);
          break;
        }
      } else {
        next := partitions[root].left;
        path, sub := GoLeft(path, sub.ind, sub.right), sub.left;
        if next < 0 {
          AttachOk(partitions[..], start, next, path, ind);
          partitions[root] := partitions[root].(left := ind);
          break;
        }
      }
      root := next;
    }
  }

  /** What `search` promises: the greatest load not above the target, or the least load if all are
      above it; nothing in an empty tree. */
  ghost predicate IsBest(t: Tree, w: seq<int>, target: int, r: int)
    requires forall x :: x in Members(t) ==> x < |w|
  {
    && (t.Leaf? <==> r == -1)
    && (t.Node? ==> r in Members(t))
    && (r in Members(t) && w[r] <= target ==> forall y :: y in Members(t) && w[y] <= target ==> w[y] <= w[r])
    && (r in Members(t) && w[r] > target ==> forall y :: y in Members(t) ==> w[r] <= w[y])
  }

  /** `search`. */
  method Search(partitions: array<Partition>, core: Core, target: int, ghost t: Tree, ghost w: seq<int>)
    returns (r: int)
    requires HasLoads(partitions[..], w) && Rooted(partitions[..], core.root, t, w)
    ensures IsBest(t, w, target, r)
  {
    var ret, smallest, root := -1, -1, core.root;
    ghost var sub := t;
    while root >= 0
      invariant IsTree(partitions[..], root, sub) && Ordered(sub, w)
      invariant forall y :: y in Members(sub) ==> y in Members(t)
      invariant ret == -1 || (ret in Members(t) && w[ret] < target)
      invariant smallest == -1 || (smallest in Members(t) && w[smallest] > target)
      invariant forall y :: y in Members(t) && y !in Members(sub) ==>
                  if w[y] <= target then ret >= 0 && w[y] <= w[ret] else smallest >= 0 && w[y] >= w[smallest]
      invariant ret >= 0 ==> forall y :: y in Members(sub) ==> w[y] >= w[ret]
      invariant smallest >= 0 ==> forall y :: y in Members(sub) ==> w[y] < w[smallest]
      decreases sub
    {
      if partitions[root].load == target {
        return root;
      } else if partitions[root].load < target {
        ret := root;
        root := partitions[root].right;
        sub := sub.right;
      } else {
        smallest := root;
        root := partitions[root].left;
        sub := sub.left;
      }
    }
    return if ret >= 0 then ret else smallest;
  }

  /** The first loop of `delete`: the parent of `ind` in the tree, if it has one. */
  method FindParent(partitions: array<Partition>, core: Core, ind: nat, ghost t: Tree, ghost w: seq<int>)
    returns (parent: int, isLeft: bool, ghost path: Path, ghost sub: Tree)
    requires HasLoads(partitions[..], w) && Rooted(partitions[..], core.root, t, w) && ind in Members(t)
    ensures IsPath(partitions[..], core.root, ind, path) && IsTree(partitions[..], ind, sub)
    ensures Plug(path, sub) == t && sub.Node? && sub.ind == ind && Ordered(sub, w)
    ensures Deleted(t, ind, w) == Plug(path, WithoutTop(sub))
    ensures parent < 0 <==> path.Top?
    ensures !path.Top? ==> parent == path.ind && (isLeft <==> path.GoLeft?)
  {
    var root := core.root;
    parent, isLeft, path, sub := -1, false, Top, t;
    while root >= 0
      invariant IsTree(partitions[..], root, sub) && IsPath(partitions[..], core.root, root, path)
      invariant Plug(path, sub) == t && ind in Members(sub) && Ordered(sub, w)
      invariant forall x :: x in Members(sub) ==> x < |w|
      invariant Deleted(t, ind, w) == Plug(path, Deleted(sub, ind, w))
      invariant parent < 0 <==> path.Top?
      invariant !path.Top? ==> parent == path.ind && (isLeft <==> path.GoLeft?)
      decreases sub
    {
      if ind == root {
        return;
      } else if partitions[root].load > partitions[ind].load {
        parent, isLeft := root, true;
        path, sub := GoLeft(path, sub.ind, sub.right), sub.left;
        root := partitions[root].left;
      } else {
        parent, isLeft := root, false;
        path, sub := GoRight(path, sub.left, sub.ind), sub.right;
        root := partitions[root].right;
      }
    }
  }

  /** Store `y` in the link that led to the deleted index. */
  method Relink(partitions: array<Partition>, cores: array<Core>, k: nat, parent: int, isLeft: bool, y: int,
                ghost path: Path)
    requires k < cores.Length && parent < partitions.Length
    requires parent < 0 <==> path.Top?
    requires !path.Top? ==> parent == path.ind && (isLeft <==> path.GoLeft?)
    modifies partitions, cores
    ensures partitions[..] == Relinked(old(partitions[..]), path, y)
    ensures cores[..] == old(cores[..])[k := old(cores[k]).(root := NewRoot(old(cores[k]).root, path, y))]
  {
    if parent < 0 {
      cores[k] := cores[k].(root := y);
    } else if isLeft {
      partitions[parent] := partitions[parent].(left := y);
    } else {
      partitions[parent] := partitions[parent].(right := y);
    }
  }

  /** The loop that finds the in-order successor of `ind` and its parent. */
  method FindSuccessor(partitions: array<Partition>, ind: nat, ghost sub: Tree)
    returns (successor: int, succParent: int, ghost path: Path, ghost t: Tree)
    requires IsTree(partitions[..], ind, sub) && sub.Node? && sub.right.Node?
    ensures IsTree(partitions[..], successor, t) && t.Node? && t.left.Leaf?
    ensures IsPath(partitions[..], partitions[ind].right, successor, path)
    ensures Plug(path, t) == sub.right && Least(sub.right) == successor
    ensures WithoutLeast(sub.right) == Plug(path, t.right)
    ensures path.Top? ==> succParent == ind
    ensures !path.Top? ==> path.GoLeft? && succParent == path.ind
  {
    path, t := Top, sub.right;
    succParent := ind;
    successor := partitions[ind].right;
    while partitions[successor].left >= 0
      invariant IsTree(partitions[..], successor, t) && t.Node?
      invariant IsPath(partitions[..], partitions[ind].right, successor, path)
      invariant Plug(path, t) == sub.right && Least(t) == Least(sub.right)
      invariant WithoutLeast(sub.right) == Plug(path, WithoutLeast(t))
      invariant path.Top? ==> succParent == ind
      invariant !path.Top? ==> path.GoLeft? && succParent == path.ind
      decreases t
    {
      path, t := GoLeft(path, t.ind, t.right), t.left;
      succParent := successor;
      successor := partitions[successor].left;
    }
  }

  /** The successor's right child takes its place. */
  lemma DetachOk(p: seq<Partition>, top: int, x: int, path: Path, t: Tree, whole: Tree)
    requires IsTree(p, x, t) && t.Node? && IsPath(p, top, x, path)
    requires Plug(path, t) == whole && Proper(whole)
    ensures Proper(t) && ProperPath(path) && Members(t) !! OnPath(path)
    ensures Members(whole) == OnPath(path) + Members(t)
    ensures Members(Plug(path, t.right)) == OnPath(path) + Members(t.right)
    ensures IsTree(Relinked(p, path, p[x].right), NewRoot(top, path, p[x].right), Plug(path, t.right))
  {
    PlugMembers(path, t);
    PlugMembers(path, t.right);
    Replace(p, top, x, path, p[x].right, t.right);
  }

  /** The successor of an index with two children moves to the top of its subtree. */
  method RaiseSuccessor(partitions: array<Partition>, ind: nat, ghost sub: Tree) returns (successor: int)
    requires IsTree(partitions[..], ind, sub) && sub.Node? && sub.left.Node? && sub.right.Node? && Proper(sub)
    modifies partitions
    ensures IsTree(partitions[..], successor, WithoutTop(sub)) && successor >= 0
    ensures OnlyLinks(old(partitions[..]), partitions[..], Members(sub.right))
  {
    ghost var p := partitions[..];
    ghost var top := p[ind].right;
    ghost var path, t;
    var succParent;
    successor, succParent, path, t := FindSuccessor(partitions, ind, sub);
    DetachOk(p, top, successor, path, t, sub.right);
    if succParent == ind {
      assert path.Top?;
      partitions[successor] := partitions[successor].(left := partitions[ind].left);
    } else {
      partitions[succParent] := partitions[succParent].(left := partitions[successor].right);
      partitions[successor] := partitions[successor].(left := partitions[ind].left);
      partitions[successor] := partitions[successor].(right := partitions[ind].right);
    }
    ghost var x := p[successor].right;
    TreeFrame(Relinked(p, path, x), partitions[..], NewRoot(top, path, x), WithoutLeast(sub.right));
    TreeFrame(p, partitions[..], p[ind].left, sub.left);
  }

  /** The subtree without its top is put where the subtree was. */
  lemma PutBackOk(p: seq<Partition>, q: seq<Partition>, root: int, ind: nat, path: Path, sub: Tree, y: int)
    requires sub.Node? && IsPath(p, root, ind, path) && OnlyLinks(p, q, Members(sub)) && IsTree(q, y, WithoutTop(sub))
    requires ProperPath(path) && Members(sub) !! OnPath(path) && Members(WithoutTop(sub)) <= Members(sub)
    ensures IsTree(Relinked(q, path, y), NewRoot(root, path, y), Plug(path, WithoutTop(sub)))
    ensures OnlyLinks(p, Relinked(q, path, y), Members(sub) + OnPath(path))
  {
    PathFrame(p, q, root, ind, path);
    Replace(q, root, ind, path, y, WithoutTop(sub));
    RelinkedOnlyLinks(q, root, ind, path, y);
    OnlyLinksThen(p, q, Relinked(q, path, y), Members(sub), OnPath(path));
  }

  /** What takes the place of the node: its only child, or its in-order successor. */
  method RaiseChild(partitions: array<Partition>, ind: nat, ghost sub: Tree) returns (y: int)
    requires IsTree(partitions[..], ind, sub) && sub.Node? && Proper(sub)
    modifies partitions
    ensures IsTree(partitions[..], y, WithoutTop(sub))
    ensures OnlyLinks(old(partitions[..]), partitions[..], Members(sub))
  {
    if partitions[ind].left < 0 {
      y := partitions[ind].right;
    } else if partitions[ind].right < 0 {
      y := partitions[ind].left;
    } else {
      y := RaiseSuccessor(partitions, ind, sub);
    }
  }

  /** `delete`. */
  method Delete(partitions: array<Partition>, cores: array<Core>, k: nat, ind: nat, ghost t: Tree,
                ghost w: seq<int>)
    returns (r: int)
    requires k < cores.Length && ind < partitions.Length && HasLoads(partitions[..], w)
    requires Rooted(partitions[..], cores[k].root, t, w) && (t.Leaf? || ind in Members(t))
    modifies partitions, cores
    ensures r == if t.Leaf? then 1 else 0
    ensures OnlyLinks(old(partitions[..]), partitions[..], Members(t))
    ensures cores[..] == old(cores[..])[k := old(cores[k]).(root := cores[k].root)]
    ensures Rooted(partitions[..], cores[k].root, Deleted(t, ind, w), w)
  {
    if cores[k].root < 0 {
      return 1;
    }
    ghost var p, root := partitions[..], cores[k].root;
    DeletedIsOrdered(t, ind, w);
    var parent, isLeft;
    ghost var path, sub;
    parent, isLeft, path, sub := FindParent(partitions, cores[k], ind, t, w);
    PlugMembers(path, sub);
    WithoutTopIsOrdered(sub, w);
    var y := RaiseChild(partitions, ind, sub);
    PutBackOk(p, partitions[..], root, ind, path, sub, y);
    Relink(partitions, cores, k, parent, isLeft, y, path);
    r := 0;
  }
}
