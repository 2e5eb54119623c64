/**
 The construction and the paths of the tournament tree in tree.c: create_tree, find_leaf, and how
 trnmnt_tree_acquire and trnmnt_tree_release walk `parent` pointers and `lockPath`.

 Nodes live in an arena: a pointer is an index into `nodes`, NULL is -1 and malloc appends. create_tree numbers
 nodes through the globals `index`, `curLevel` and `level_index`. The results of kthread_mutex_alloc, _lock and
 _unlock are inputs here; `Tournament` is about their behaviour.
 */
module TournamentTree {
  import opened Common
  import T = Tournament

  const NULL: int := -1

  datatype TreeNode = TreeNode(
    left: int, right: int, parent: int, mutexId: int, index: int, level: int, lockPath: seq<int>)

  // ------------------------------------------------------------------ perfect trees

  /** How many nodes lie below the root of a perfect tree with `depth` layers of nodes. */
  ghost function Below(depth: nat): (n: nat)
    requires depth >= 1
  {
    if depth == 1 then 0 else 2 + 2 * Below(depth - 1)
  }

  /**
   x is the root of a perfect tree with `depth` layers, has number k on its level, and the nodes below it start
   at arena position lo. Children are numbered 2k and 2k+1, so each level is numbered from left to right.
   */
  ghost predicate Perfect(ns: seq<TreeNode>, x: nat, depth: nat, k: nat, lo: nat)
    requires depth >= 1
    decreases depth
  {
    && x < |ns| && lo + Below(depth) <= |ns| && x < lo
    && ns[x].level == depth - 2
    && ns[x].index == k
    && (depth == 1 ==> ns[x].left == NULL && ns[x].right == NULL)
    && (depth > 1 ==>
          && ns[x].left == lo && ns[x].right == lo + 1
          && ns[lo].parent == x && ns[lo + 1].parent == x
          && Perfect(ns, lo, depth - 1, 2 * k, lo + 2)
          && Perfect(ns, lo + 1, depth - 1, 2 * k + 1, lo + 2 + Below(depth - 1)))
  }

  /** The shape depends only on the root and the nodes below it, and not on lock paths. */
  lemma {:induction false} PerfectFrame(ns: seq<TreeNode>, ms: seq<TreeNode>, x: nat, depth: nat, k: nat, lo: nat)
    requires depth >= 1 && Perfect(ns, x, depth, k, lo)
    requires |ms| >= lo + Below(depth) && ms[x].(lockPath := []) == ns[x].(lockPath := [])
    requires forall i | lo <= i < lo + Below(depth) :: ms[i].(lockPath := []) == ns[i].(lockPath := [])
    ensures Perfect(ms, x, depth, k, lo)
    decreases depth
  {
    if depth > 1 {
      PerfectFrame(ns, ms, lo, depth - 1, 2 * k, lo + 2);
      PerfectFrame(ns, ms, lo + 1, depth - 1, 2 * k + 1, lo + 2 + Below(depth - 1));
    }
  }

  // ------------------------------------------------------------------ finding a leaf

  /** find_leaf: search both subtrees, prefer a hit on the left. */
  function FindLeaf(ns: seq<TreeNode>, x: nat, ghost depth: nat, ghost k: nat, ghost lo: nat, id: int): (p: int)
    requires depth >= 1 && Perfect(ns, x, depth, k, lo)
    decreases depth
  {
    if ns[x].right == NULL && ns[x].left == NULL then
      if id == ns[x].index then x else NULL
    else
      var leaf1 := FindLeaf(ns, ns[x].left, depth - 1, 2 * k, lo + 2, id);
      var leaf2 := FindLeaf(ns, ns[x].right, depth - 1, 2 * k + 1, lo + 2 + Below(depth - 1), id);
      if leaf1 != NULL then leaf1 else leaf2
  }

  ghost predicate IsLeaf(n: TreeNode) {
    n.left == NULL && n.right == NULL
  }

  /** Leaf numbers under a node with number k: from k * 2^(depth-1) up. */
  ghost predicate Covers(depth: nat, k: nat, id: int)
    requires depth >= 1
  {
    k * Pow2(depth - 1) <= id < (k + 1) * Pow2(depth - 1)
  }

  lemma CoversSplit(depth: nat, k: nat, id: int)
    requires depth >= 2
    ensures Covers(depth, k, id) <==> Covers(depth - 1, 2 * k, id) || Covers(depth - 1, 2 * k + 1, id)
    ensures !(Covers(depth - 1, 2 * k, id) && Covers(depth - 1, 2 * k + 1, id))
  {
    var p := Pow2(depth - 2);
    assert Pow2(depth - 1) == 2 * p;
    assert k * (2 * p) == (2 * k) * p;
    assert (2 * k + 1) * p == (2 * k) * p + p;
    assert (2 * k + 2) * p == (2 * k + 1) * p + p;
    assert (k + 1) * (2 * p) == (2 * k + 2) * p;
  }

  /** find_leaf succeeds exactly on the leaf numbers it covers, with the leaf of that number. */
  lemma {:induction false} FindLeafIff(ns: seq<TreeNode>, x: nat, depth: nat, k: nat, lo: nat, id: int)
    requires depth >= 1 && Perfect(ns, x, depth, k, lo)
    ensures var p := FindLeaf(ns, x, depth, k, lo, id);
            && (p != NULL <==> Covers(depth, k, id))
            && (p != NULL ==> (p == x || lo <= p < lo + Below(depth)) && IsLeaf(ns[p]) && ns[p].index == id)
    decreases depth
  {
    if depth == 1 {
      assert Pow2(0) == 1;
    } else {
      FindLeafIff(ns, lo, depth - 1, 2 * k, lo + 2, id);
      FindLeafIff(ns, lo + 1, depth - 1, 2 * k + 1, lo + 2 + Below(depth - 1), id);
      CoversSplit(depth, k, id);
    }
  }

  /** What find_leaf finds in one subtree it does not find in the other. */
  lemma FoundOnce(ns: seq<TreeNode>, x: nat, depth: nat, k: nat, lo: nat, id: int, p: int)
    requires depth >= 2 && Perfect(ns, x, depth, k, lo) && p != NULL
    requires || FindLeaf(ns, lo, depth - 1, 2 * k, lo + 2, id) == p
             || FindLeaf(ns, lo + 1, depth - 1, 2 * k + 1, lo + 2 + Below(depth - 1), id) == p
    ensures FindLeaf(ns, x, depth, k, lo, id) == p
  {
    FindLeafIff(ns, lo, depth - 1, 2 * k, lo + 2, id);
    FindLeafIff(ns, lo + 1, depth - 1, 2 * k + 1, lo + 2 + Below(depth - 1), id);
    CoversSplit(depth, k, id);
  }

  /** No other leaf below x carries the number. */
  lemma {:induction false} LeafUnique(ns: seq<TreeNode>, x: nat, depth: nat, k: nat, lo: nat, p: nat)
    requires depth >= 1 && Perfect(ns, x, depth, k, lo)
    requires (p == x || lo <= p < lo + Below(depth)) && IsLeaf(ns[p])
    ensures FindLeaf(ns, x, depth, k, lo, ns[p].index) == p
    decreases depth
  {
    if depth > 1 {
      if p == lo || lo + 2 <= p < lo + 2 + Below(depth - 1) {
        LeafUnique(ns, lo, depth - 1, 2 * k, lo + 2, p);
      } else {
        LeafUnique(ns, lo + 1, depth - 1, 2 * k + 1, lo + 2 + Below(depth - 1), p);
      }
      FoundOnce(ns, x, depth, k, lo, ns[p].index, p);
    }
  }

  // ------------------------------------------------------------------ the path to the root

  /** The j-th ancestor. */
  ghost function Ancestor(ns: seq<TreeNode>, p: int, j: nat): (a: int) {
    if j == 0 then p
    else
      var q := Ancestor(ns, p, j - 1);
      if 0 <= q < |ns| then ns[q].parent else NULL
  }

  /** The ancestors of a leaf: one per level, numbered as the node that `Tournament` locks there. */
  lemma {:induction false} LeafPath(ns: seq<TreeNode>, x: nat, depth: nat, k: nat, lo: nat, id: nat, j: nat)
    requires depth >= 1 && Perfect(ns, x, depth, k, lo) && Covers(depth, k, id) && j < depth
    ensures var p := FindLeaf(ns, x, depth, k, lo, id);
            var a := Ancestor(ns, p, j);
            && p != NULL
            && 0 <= a < |ns| && ns[a].level == j - 1 && ns[a].index == T.Up(id, j)
            && (a == x || lo <= a < lo + Below(depth))
            && (j == depth - 1 ==> a == x)
            && (j < depth - 1 ==> ns[a].parent != NULL)
    decreases depth, j
  {
    if depth > 1 {
      var (c, n, l) := Toward(depth, k, lo, id);
      FindLeafToward(ns, x, depth, k, lo, id);
      LeafPath(ns, c, depth - 1, n, l, id, if j < depth - 1 then j else j - 1);
    } else {
      assert Pow2(0) == 1;
    }
  }

  /** The child toward leaf `id`: its position, its number and where the nodes below it start. */
  ghost function Toward(depth: nat, k: nat, lo: nat, id: nat): (c: (nat, nat, nat))
    requires depth >= 2
  {
    if Covers(depth - 1, 2 * k, id) then (lo, 2 * k, lo + 2) else (lo + 1, 2 * k + 1, lo + 2 + Below(depth - 1))
  }

  lemma FindLeafToward(ns: seq<TreeNode>, x: nat, depth: nat, k: nat, lo: nat, id: nat)
    requires depth >= 2 && Perfect(ns, x, depth, k, lo) && Covers(depth, k, id)
    ensures var (c, n, l) := Toward(depth, k, lo, id);
            && Perfect(ns, c, depth - 1, n, l) && Covers(depth - 1, n, id) && ns[c].parent == x
            && lo <= c && lo <= l && l + Below(depth - 1) <= lo + Below(depth) && c < lo + Below(depth)
            && FindLeaf(ns, x, depth, k, lo, id) == FindLeaf(ns, c, depth - 1, n, l, id)
  {
    CoversSplit(depth, k, id);
    FindLeafIff(ns, lo, depth - 1, 2 * k, lo + 2, id);
    FindLeafIff(ns, lo + 1, depth - 1, 2 * k + 1, lo + 2 + Below(depth - 1), id);
  }

  // ------------------------------------------------------------------ the code

  /** The mutex of the ancestor at level l. */
  ghost function AncestorMutex(ns: seq<TreeNode>, p: int, l: nat): (m: int) {
    var a := Ancestor(ns, p, l + 1);
    if 0 <= a < |ns| then ns[a].mutexId else NULL
  }

  /** One step of the walk: the parent of the j-th ancestor is the node of level j on the leaf's path. */
  lemma NextAncestor(ns: seq<TreeNode>, root: nat, depth: nat, id: nat, leaf: nat, j: nat)
    requires depth >= 1 && Perfect(ns, root, depth, 0, root + 1) && Covers(depth, 0, id) && j + 1 < depth
    requires ns[root].parent == NULL && leaf == FindLeaf(ns, root, depth, 0, root + 1, id)
    ensures var a := Ancestor(ns, leaf, j + 1);
            && 0 <= Ancestor(ns, leaf, j) < |ns| && a == ns[Ancestor(ns, leaf, j)].parent
            && 0 <= a < |ns| && ns[a].level == j && ns[a].mutexId == AncestorMutex(ns, leaf, j)
            && ns[a].index == T.PathNode(id, j).index
            && (ns[a].parent != NULL <==> j + 2 < depth)
  {
    LeafPath(ns, root, depth, 0, root + 1, id, j);
    LeafPath(ns, root, depth, 0, root + 1, id, j + 1);
  }

  // ------------------------------------------------------------------ the mutexes

  /**
   The inner nodes of the tree at x have the mutexes of the calls of kthread_mutex_alloc from number c on: the root the
   first, then those of the left subtree and those of the right one.
   */
  ghost predicate Mutexed(ns: seq<TreeNode>, x: nat, depth: nat, lo: nat, alloc: nat -> int, c: nat)
    requires depth >= 1
    decreases depth
  {
    depth > 1 ==>
      && x < |ns| && ns[x].mutexId == alloc(c)
      && Mutexed(ns, lo, depth - 1, lo + 2, alloc, c + 1)
      && Mutexed(ns, lo + 1, depth - 1, lo + 2 + Below(depth - 1), alloc, c + Pow2(depth - 2))
  }

  lemma {:induction false} MutexedFrame(ns: seq<TreeNode>, ms: seq<TreeNode>, x: nat, depth: nat, lo: nat,
                                        alloc: nat -> int, c: nat)
    requires depth >= 1 && Mutexed(ns, x, depth, lo, alloc, c) && |ms| >= lo + Below(depth) && |ns| >= lo + Below(depth)
    requires x < lo && ms[x].mutexId == ns[x].mutexId
    requires forall i | lo <= i < lo + Below(depth) :: ms[i].mutexId == ns[i].mutexId
    ensures Mutexed(ms, x, depth, lo, alloc, c)
    decreases depth
  {
    if depth > 1 {
      MutexedFrame(ns, ms, lo, depth - 1, lo + 2, alloc, c + 1);
      MutexedFrame(ns, ms, lo + 1, depth - 1, lo + 2 + Below(depth - 1), alloc, c + Pow2(depth - 2));
    }
  }

  /** The number of the call that gave the mutex of the node at level l on the path of leaf id. */
  ghost function CallFor(depth: nat, k: nat, c: nat, id: nat, l: nat): (n: nat)
    requires l + 2 <= depth
    ensures c <= n < c + Pow2(depth - 1) - 1
    decreases depth
  {
    if l + 2 == depth then c
    else if Covers(depth - 1, 2 * k, id) then CallFor(depth - 1, 2 * k, c + 1, id, l)
    else CallFor(depth - 1, 2 * k + 1, c + Pow2(depth - 2), id, l)
  }

  /** It is one call per node: two paths have the same call exactly where they have the same node. */
  lemma {:induction false} CallForIff(depth: nat, k: nat, c: nat, id: nat, l: nat, jd: nat, m: nat)
    requires l + 2 <= depth && m + 2 <= depth && Covers(depth, k, id) && Covers(depth, k, jd)
    ensures CallFor(depth, k, c, id, l) == CallFor(depth, k, c, jd, m) <==> T.PathNode(id, l) == T.PathNode(jd, m)
    decreases depth
  {
    CoversSplit(depth, k, id);
    CoversSplit(depth, k, jd);
    if l + 2 == depth || m + 2 == depth {
      UpIs(depth, k, id);
      UpIs(depth, k, jd);
    } else if Covers(depth - 1, 2 * k, id) == Covers(depth - 1, 2 * k, jd) {
      if Covers(depth - 1, 2 * k, id) {
        CallForIff(depth - 1, 2 * k, c + 1, id, l, jd, m);
      } else {
        CallForIff(depth - 1, 2 * k + 1, c + Pow2(depth - 2), id, l, jd, m);
      }
    } else {
      PathsApart(depth, k, id, jd, l);
    }
  }

  /** The number, on its level, of the root of the tree that covers a leaf. */
  lemma {:induction false} UpIs(depth: nat, k: nat, id: nat)
    requires depth >= 1 && Covers(depth, k, id)
    ensures T.Up(id, depth - 1) == k
    decreases depth
  {
    if depth == 1 {
      assert Pow2(0) == 1;
    } else {
      CoversSplit(depth, k, id);
      UpIs(depth - 1, if Covers(depth - 1, 2 * k, id) then 2 * k else 2 * k + 1, id);
    }
  }

  /** Leaves of different subtrees have no node below their root in common. */
  lemma {:induction false} PathsApart(depth: nat, k: nat, id: nat, jd: nat, l: nat)
    requires l + 3 <= depth && Covers(depth, k, id) && Covers(depth, k, jd)
    requires Covers(depth - 1, 2 * k, id) != Covers(depth - 1, 2 * k, jd)
    ensures T.Up(id, l + 1) != T.Up(jd, l + 1)
  {
    CoversSplit(depth, k, id);
    CoversSplit(depth, k, jd);
    UpIs(depth - 1, if Covers(depth - 1, 2 * k, id) then 2 * k else 2 * k + 1, id);
    UpIs(depth - 1, if Covers(depth - 1, 2 * k, jd) then 2 * k else 2 * k + 1, jd);
    if T.Up(id, l + 1) == T.Up(jd, l + 1) {
      UpSame(id, jd, l + 1, depth - 2);
    }
  }

  lemma {:induction false} UpSame(id: nat, jd: nat, j: nat, n: nat)
    requires j <= n && T.Up(id, j) == T.Up(jd, j)
    ensures T.Up(id, n) == T.Up(jd, n)
  {
    if j < n {
      UpSame(id, jd, j, n - 1);
    }
  }

  /** The mutex that a path has at level l is the one of that call. */
  lemma {:induction false} MutexOnPath(ns: seq<TreeNode>, x: nat, depth: nat, k: nat, lo: nat, alloc: nat -> int, c: nat,
                                       id: nat, l: nat)
    requires l + 2 <= depth && Perfect(ns, x, depth, k, lo) && Mutexed(ns, x, depth, lo, alloc, c) && Covers(depth, k, id)
    ensures AncestorMutex(ns, FindLeaf(ns, x, depth, k, lo, id), l) == alloc(CallFor(depth, k, c, id, l))
    decreases depth
  {
    LeafPath(ns, x, depth, k, lo, id, l + 1);
    FindLeafToward(ns, x, depth, k, lo, id);
    CoversSplit(depth, k, id);
    if l + 2 < depth {
      if Covers(depth - 1, 2 * k, id) {
        MutexOnPath(ns, lo, depth - 1, 2 * k, lo + 2, alloc, c + 1, id, l);
      } else {
        MutexOnPath(ns, lo + 1, depth - 1, 2 * k + 1, lo + 2 + Below(depth - 1), alloc, c + Pow2(depth - 2), id, l);
      }
    }
  }

  /** The calls from number c on, n of them, give different mutexes. */
  ghost predicate AllDifferent(alloc: nat -> int, c: nat, n: nat) {
    forall i: nat, j: nat | c <= i < j < c + n :: alloc(i) != alloc(j)
  }

  /**
   What `Tournament` assumes: if the mutexes allocated for the tree are different, then two leaves have the same mutex
   on some levels of their paths exactly where they have the same node. So the mutexes of one path are different, too.
   */
  lemma MutexPerNode(ns: seq<TreeNode>, root: nat, depth: nat, alloc: nat -> int, c: nat, id: nat, l: nat, jd: nat, m: nat)
    requires depth >= 1 && Perfect(ns, root, depth + 1, 0, root + 1) && Mutexed(ns, root, depth + 1, root + 1, alloc, c)
    requires AllDifferent(alloc, c, Pow2(depth) - 1)
    requires id < Pow2(depth) && jd < Pow2(depth) && l < depth && m < depth
    ensures var p, q := FindLeaf(ns, root, depth + 1, 0, root + 1, id), FindLeaf(ns, root, depth + 1, 0, root + 1, jd);
            AncestorMutex(ns, p, l) == AncestorMutex(ns, q, m) <==> T.PathNode(id, l) == T.PathNode(jd, m)
  {
    assert Covers(depth + 1, 0, id) && Covers(depth + 1, 0, jd);
    MutexOnPath(ns, root, depth + 1, 0, root + 1, alloc, c, id, l);
    MutexOnPath(ns, root, depth + 1, 0, root + 1, alloc, c, jd, m);
    CallForIff(depth + 1, 0, c, id, l, jd, m);
  }

  /** A change to a lock path is none to the tree. */
  lemma TreeKept(ns: seq<TreeNode>, ms: seq<TreeNode>, root: nat, depth: nat, alloc: nat -> int, c: nat, leaf: nat)
    requires depth >= 1 && Perfect(ns, root, depth, 0, root + 1) && Mutexed(ns, root, depth, root + 1, alloc, c)
    requires leaf < |ns| == |ms| && ms == ns[leaf := ns[leaf].(lockPath := ms[leaf].lockPath)]
    ensures Perfect(ms, root, depth, 0, root + 1) && Mutexed(ms, root, depth, root + 1, alloc, c)
  {
    PerfectFrame(ns, ms, root, depth, 0, root + 1);
    MutexedFrame(ns, ms, root, depth, root + 1, alloc, c);
  }

  /** level_index while k nodes of the top level, and everything below them, have been numbered. */
  ghost predicate Numbered(li: seq<int>, depth: nat, k: nat)
    decreases depth
  {
    depth <= |li| && (depth > 0 ==> li[depth - 1] == k && Numbered(li, depth - 1, 2 * k))
  }

  /** One more node of the top level, and everything below it, has been numbered. */
  ghost predicate Counted(li: seq<int>, mi: seq<int>, depth: nat, k: nat) {
    |mi| == |li| && Numbered(mi, depth, k + 1) && forall e | depth <= e < |mi| :: mi[e] == li[e]
  }

  lemma {:induction false} NumberedFrame(li: seq<int>, mi: seq<int>, depth: nat, k: nat)
    requires Numbered(li, depth, k) && depth <= |mi| && forall e | 0 <= e < depth :: mi[e] == li[e]
    ensures Numbered(mi, depth, k)
    decreases depth
  {
    if depth > 0 {
      NumberedFrame(li, mi, depth - 1, 2 * k);
    }
  }

  lemma {:induction false} NumberedZero(li: seq<int>, depth: nat)
    requires depth <= |li| && forall e | 0 <= e < |li| :: li[e] == 0
    ensures Numbered(li, depth, 0)
    decreases depth
  {
    if depth > 0 {
      NumberedZero(li, depth - 1);
    }
  }

  /** ms is ns with a perfect tree grown under x: x keeps its parent, and no other node of ns changed. */
  ghost predicate Grown(ns: seq<TreeNode>, ms: seq<TreeNode>, x: nat, depth: nat, k: nat, paths: nat) {
    && depth >= 1 && x < |ns| && |ms| == |ns| + Below(depth)
    && (forall i | 0 <= i < |ms| && (i == x || i >= |ns|) :: IsLeaf(ms[i]) ==> |ms[i].lockPath| == paths)
    && (forall i | 0 <= i < |ns| && i != x :: ms[i] == ns[i])
    && ms[x].parent == ns[x].parent
    && Perfect(ms, x, depth, k, |ns|)
  }

  /** a is ns with x numbered and two fresh children hung under it. */
  ghost predicate Split(ns: seq<TreeNode>, a: seq<TreeNode>, x: nat, depth: nat, k: nat) {
    && x < |ns| && |a| == |ns| + 2
    && (forall i | 0 <= i < |ns| && i != x :: a[i] == ns[i])
    && a[x].parent == ns[x].parent && a[x].left == |ns| && a[x].right == |ns| + 1
    && a[x].level == depth - 2 && a[x].index == k && a[|ns|].parent == x && a[|ns| + 1].parent == x
  }

  lemma MutexedJoin(ns: seq<TreeNode>, a: seq<TreeNode>, b: seq<TreeNode>, m: seq<TreeNode>, x: nat, depth: nat, k: nat,
                    paths: nat, alloc: nat -> int, c: nat, e: nat)
    requires depth >= 2 && e == c + Pow2(depth - 2) && Split(ns, a, x, depth, k) && a[x].mutexId == alloc(c)
    requires Grown(a, b, |ns|, depth - 1, 2 * k, paths) && Grown(b, m, |ns| + 1, depth - 1, 2 * k + 1, paths)
    requires Mutexed(b, |ns|, depth - 1, |ns| + 2, alloc, c + 1)
    requires Mutexed(m, |ns| + 1, depth - 1, |b|, alloc, e)
    ensures Mutexed(m, x, depth, |ns|, alloc, c)
  {
    MutexedFrame(b, m, |ns|, depth - 1, |ns| + 2, alloc, c + 1);
    assert m[x] == b[x] == a[x];
  }

  lemma GrownJoin(ns: seq<TreeNode>, a: seq<TreeNode>, b: seq<TreeNode>, c: seq<TreeNode>, x: nat, depth: nat, k: nat,
                  paths: nat)
    requires depth >= 2 && Split(ns, a, x, depth, k)
    requires Grown(a, b, |ns|, depth - 1, 2 * k, paths) && Grown(b, c, |ns| + 1, depth - 1, 2 * k + 1, paths)
    ensures Grown(ns, c, x, depth, k, paths)
  {
    PerfectFrame(b, c, |ns|, depth - 1, 2 * k, |ns| + 2);
    forall i | 0 <= i < |ns| && i != x
      ensures c[i] == ns[i]
    {
      assert c[i] == b[i] == a[i];
    }
  }

  /** The mutexes there are. */
  const MAX_MUTEXES := 64

  /** A tree asks for a mutex per inner node: the mutexes there are suffice for depths up to six. */
  lemma MutexesSufficeIff(depth: nat)
    ensures Pow2(depth) - 1 <= MAX_MUTEXES <==> depth <= 6
  {
    assert Pow2(6) == 64 && Pow2(7) == 128;
    if depth > 7 {
      Pow2Grows(7, depth);
    } else if depth <= 6 {
      Pow2Grows(depth, 6);
    }
  }

  lemma {:induction false} Pow2Grows(a: nat, b: nat)
    requires a <= b
    ensures Pow2(a) <= Pow2(b)
  {
    if a < b {
      Pow2Grows(a, b - 1);
    }
  }

  /** The calls for the levels from a up to b all succeed. */
  ghost predicate AllOf(call: nat -> bool, a: nat, b: nat) {
    forall i: nat | a <= i < b :: call(i)
  }

  /**
   What a release of n levels leaves of the path: from the top down it unlocks and clears each level, up to and not
   including the first one whose unlock fails. `order` has the mutexes that unlock was called for.
   */
  ghost predicate Unlocked(unlock: nat -> bool, n: nat, path: seq<int>, left: seq<int>, order: seq<int>) {
    && |left| == |path| >= n >= |order|
    && (forall l: nat | l < |path| :: left[l] == if l < n && AllOf(unlock, l, n) then 0 else path[l])
    && (forall l: nat | 1 <= l <= n :: AllOf(unlock, l, n) <==> n - l < |order|)
    && (forall j | 0 <= j < |order| :: order[j] == path[n - 1 - j])
  }

  /** That is what it leaves when it stops at level i, or below the lowest. */
  lemma StopsAt(unlock: nat -> bool, n: nat, path: seq<int>, left: seq<int>, order: seq<int>, i: int)
    requires -1 <= i < n <= |path| == |left| && AllOf(unlock, i + 1, n) && (i >= 0 ==> !unlock(i))
    requires forall l: nat | l < |path| :: left[l] == if i < l < n then 0 else path[l]
    requires |order| == (if i >= 0 then n - i else n) && forall j | 0 <= j < |order| :: order[j] == path[n - 1 - j]
    ensures Unlocked(unlock, n, path, left, order)
  {
    forall l: nat | l <= n
      ensures AllOf(unlock, l, n) <==> i < l
    {
      if l <= i {
        assert !unlock(i);
      }
    }
  }

  class Builder {
    var nodes: seq<TreeNode>
    var levelIndex: seq<int>
    var index: int
    var curLevel: int
    var treeDepth: nat
    const mutexAlloc: nat -> int
    var mutexCalls: nat
    /** The number of the first call for the last tree allocated. */
    ghost var firstCall: nat

    constructor (mutexAlloc: nat -> int)
      ensures nodes == [] && index == 0 && curLevel == -2
    {
      nodes, levelIndex, index, curLevel, treeDepth, mutexCalls := [], [], 0, -2, 0, 0;
      firstCall := 0;
      this.mutexAlloc := mutexAlloc;
    }

    /** The last tree allocated stands at root, with a mutex per inner node, and its leaves have room for their paths. */
    ghost predicate TreeAt(root: int)
      reads this
    {
      && treeDepth >= 1 && 0 <= root < |nodes|
      && Perfect(nodes, root, treeDepth + 1, 0, root + 1)
      && Mutexed(nodes, root, treeDepth + 1, root + 1, mutexAlloc, firstCall)
      && nodes[root].parent == NULL
      && forall i | root <= i < |nodes| :: IsLeaf(nodes[i]) ==> |nodes[i].lockPath| == treeDepth
    }

    /** trnmnt_tree_alloc; NULL for an illegal depth. The globals may be left over from an earlier tree. */
    method TreeAlloc(depth: int) returns (root: int)
      requires curLevel <= -1
      modifies this
      ensures depth < 1 ==> root == NULL && nodes == old(nodes)
      ensures depth >= 1 ==>
                && root == |old(nodes)| && treeDepth == depth && curLevel == -1
                && old(nodes) <= nodes && TreeAt(root)
                && firstCall == old(mutexCalls) && mutexCalls == old(mutexCalls) + Pow2(depth) - 1
    {
      if depth < 1 {
        return NULL;
      }
      root := |nodes|;
      nodes := nodes + [TreeNode(0, 0, NULL, 0, 0, 0, [])];
      treeDepth, firstCall := depth, mutexCalls;
      levelIndex := seq(depth + 1, _ => 0);
      NumberedZero(levelIndex, depth + 1);
      CreateTree(root, depth + 1, 0);
    }

    /** The first part of create_tree: give x the next number of its level. */
    method NumberNode(x: nat, depth: nat, ghost k: nat)
      requires depth >= 1 && x < |nodes| && Numbered(levelIndex, depth, k)
      requires curLevel == depth - 2 ==> index == levelIndex[depth - 1]
      modifies this`nodes, this`levelIndex, this`index, this`curLevel
      ensures nodes == old(nodes)[x := old(nodes)[x].(level := depth - 2, index := k)]
      ensures levelIndex == old(levelIndex)[depth - 1 := k + 1]
      ensures Numbered(levelIndex, depth - 1, 2 * k) && index == k + 1 && curLevel == depth - 2
    {
      if curLevel != depth - 2 {
        index := levelIndex[depth - 1];
        curLevel := depth - 2;
      }
      nodes := nodes[x := nodes[x].(level := curLevel, index := index)];
      index := index + 1;
      levelIndex := levelIndex[depth - 1 := index];
      NumberedFrame(old(levelIndex), levelIndex, depth - 1, 2 * k);
    }

    /** The part of create_tree for an inner node: two children, and a mutex. */
    method AddChildren(x: nat) returns (left: nat, right: nat)
      requires x < |nodes|
      modifies this`nodes, this`mutexCalls
      ensures left == |old(nodes)| && right == left + 1 && mutexCalls == old(mutexCalls) + 1
      ensures var n := old(nodes)[x].(left := left, right := right, mutexId := mutexAlloc(old(mutexCalls)));
              nodes == old(nodes)[x := n] + [TreeNode(0, 0, x, 0, 0, 0, []), TreeNode(0, 0, x, 0, 0, 0, [])]
    {
      left := |nodes|;
      right := left + 1;
      nodes := nodes + [TreeNode(0, 0, x, 0, 0, 0, []), TreeNode(0, 0, x, 0, 0, 0, [])];
      nodes := nodes[x := nodes[x].(left := left, right := right, mutexId := mutexAlloc(mutexCalls))];
      mutexCalls := mutexCalls + 1;
    }

    /** create_tree: despite the shared counters, the subtree is numbered from left to right on each level. */
    method CreateTree(x: nat, depth: nat, ghost k: nat)
      requires depth >= 1 ==> x < |nodes| && Numbered(levelIndex, depth, k)
      requires depth >= 1 && curLevel == depth - 2 ==> index == levelIndex[depth - 1]
      modifies this`nodes, this`levelIndex, this`index, this`curLevel, this`mutexCalls
      ensures depth == 0 ==> nodes == old(nodes) && levelIndex == old(levelIndex)
      ensures depth >= 1 ==>
                && Grown(old(nodes), nodes, x, depth, k, treeDepth)
                && Mutexed(nodes, x, depth, |old(nodes)|, mutexAlloc, old(mutexCalls))
                && mutexCalls == old(mutexCalls) + Pow2(depth - 1) - 1
                && Counted(old(levelIndex), levelIndex, depth, k) && curLevel == -1 && index == levelIndex[0]
      decreases depth, 1
    {
      if depth == 0 {
        return;
      }
      NumberNode(x, depth, k);
      if depth == 1 {
        nodes := nodes[x := nodes[x].(left := NULL, right := NULL, lockPath := seq(treeDepth, _ => 0))];
      } else {
        var left, right := AddChildren(x);
        CreateChildren(x, left, right, depth, k, old(nodes));
      }
    }

    /** The two recursive calls of create_tree. */
    method CreateChildren(x: nat, left: nat, right: nat, depth: nat, ghost k: nat, ghost ns: seq<TreeNode>)
      requires depth >= 2 && Split(ns, nodes, x, depth, k) && left == |ns| && right == left + 1
      requires Numbered(levelIndex, depth - 1, 2 * k) && curLevel == depth - 2
      requires mutexCalls > 0 && nodes[x].mutexId == mutexAlloc(mutexCalls - 1)
      modifies this`nodes, this`levelIndex, this`index, this`curLevel, this`mutexCalls
      ensures Grown(ns, nodes, x, depth, k, treeDepth)
      ensures Mutexed(nodes, x, depth, |ns|, mutexAlloc, old(mutexCalls) - 1)
      ensures mutexCalls == old(mutexCalls) + Pow2(depth - 1) - 2
      ensures |levelIndex| == |old(levelIndex)| && Numbered(levelIndex, depth - 1, 2 * k + 2)
      ensures forall e | depth - 1 <= e < |levelIndex| :: levelIndex[e] == old(levelIndex)[e]
      ensures curLevel == -1 && index == levelIndex[0]
      decreases depth, 0
    {
      ghost var a, c := nodes, mutexCalls - 1;
      CreateTree(left, depth - 1, 2 * k);
      ghost var b, e := nodes, mutexCalls;
      CreateTree(right, depth - 1, 2 * k + 1);
      GrownJoin(ns, a, b, nodes, x, depth, k, treeDepth);
      MutexedJoin(ns, a, b, nodes, x, depth, k, treeDepth, mutexAlloc, c, e);
    }

    /**
     trnmnt_tree_acquire; `lock(j)` says whether the j-th lock call returns 0. The path is filled with the mutexes of
     the leaf's ancestors by level, up to and including the first lock that fails. For a number that no leaf has the
     source goes on with a null pointer; here the leaf is NULL and nothing happens.
     */
    method Acquire(root: nat, id: int, lock: nat -> bool) returns (ok: bool, leaf: int)
      requires TreeAt(root)
      modifies this`nodes
      ensures leaf == FindLeaf(old(nodes), root, treeDepth + 1, 0, root + 1, id)
      ensures leaf != NULL <==> 0 <= id < Pow2(treeDepth)
      ensures leaf == NULL ==> !ok && nodes == old(nodes)
      ensures TreeAt(root)
      ensures leaf != NULL ==> 0 <= leaf < |nodes| == |old(nodes)| && (ok <==> AllOf(lock, 0, treeDepth))
      ensures leaf != NULL ==> nodes == old(nodes)[leaf := old(nodes)[leaf].(lockPath := nodes[leaf].lockPath)]
      ensures leaf != NULL ==> |nodes[leaf].lockPath| == treeDepth
      ensures leaf != NULL ==> |old(nodes)[leaf].lockPath| == treeDepth
      ensures leaf != NULL ==>
                forall l: nat | l < treeDepth ::
                  nodes[leaf].lockPath[l] ==
                  if AllOf(lock, 0, l) then AncestorMutex(old(nodes), leaf, l) else old(nodes)[leaf].lockPath[l]
    {
      ghost var ns, depth := nodes, treeDepth + 1;
      leaf := FindLeaf(nodes, root, depth, 0, root + 1, id);
      FindLeafIff(ns, root, depth, 0, root + 1, id);
      if leaf == NULL {
        return false, NULL;
      }
      var cur := leaf;
      var j: nat := 0;
      LeafPath(ns, root, depth, 0, root + 1, id, 0);
      while nodes[cur].parent != NULL
        invariant j < depth && cur == Ancestor(ns, leaf, j) && 0 <= cur < |ns|
        invariant |nodes| == |ns| && nodes == ns[leaf := ns[leaf].(lockPath := nodes[leaf].lockPath)]
        invariant |nodes[leaf].lockPath| == treeDepth
        invariant ns[cur].parent != NULL <==> j < depth - 1
        invariant forall l: nat | l < j :: lock(l) && nodes[leaf].lockPath[l] == AncestorMutex(ns, leaf, l)
        invariant forall l: nat | j <= l < treeDepth :: nodes[leaf].lockPath[l] == ns[leaf].lockPath[l]
        decreases depth - j
      {
        NextAncestor(ns, root, depth, id, leaf, j);
        var parent := nodes[cur].parent;
        var mutexId, level := nodes[parent].mutexId, nodes[parent].level;
        var locked := lock(j);
        nodes := nodes[leaf := nodes[leaf].(lockPath := nodes[leaf].lockPath[level := mutexId])];
        if !locked {
          TreeKept(ns, nodes, root, depth, mutexAlloc, firstCall, leaf);
          return false, leaf;
        }
        cur := parent;
        j := j + 1;
      }
      TreeKept(ns, nodes, root, depth, mutexAlloc, firstCall, leaf);
      ok := true;
    }

    /**
     The loop of trnmnt_tree_release; `order` lists the mutexes unlocked. It unlocks as many levels as the last tree
     allocated has, from its root level down: the whole path of a leaf of that tree, the lower levels only of a leaf of
     an older and deeper tree. For an older tree of less depth the source reads behind the path.
     */
    method ReleasePath(leaf: nat, unlock: nat -> bool) returns (ok: bool, order: seq<int>)
      requires leaf < |nodes| && |nodes[leaf].lockPath| >= treeDepth
      modifies this`nodes
      ensures ok <==> AllOf(unlock, 0, treeDepth)
      ensures |nodes| == |old(nodes)|
      ensures nodes == old(nodes)[leaf := old(nodes)[leaf].(lockPath := nodes[leaf].lockPath)]
      ensures Unlocked(unlock, treeDepth, old(nodes)[leaf].lockPath, nodes[leaf].lockPath, order)
    {
      ghost var path := nodes[leaf].lockPath;
      order := [];
      var i := treeDepth - 1;
      while i >= 0
        invariant -1 <= i < treeDepth && |order| == treeDepth - 1 - i
        invariant |nodes| == |old(nodes)| && nodes == old(nodes)[leaf := old(nodes)[leaf].(lockPath := nodes[leaf].lockPath)]
        invariant |nodes[leaf].lockPath| == |path| && AllOf(unlock, i + 1, treeDepth)
        invariant forall l: nat | l < |path| :: nodes[leaf].lockPath[l] == if i < l < treeDepth then 0 else path[l]
        invariant forall j | 0 <= j < |order| :: order[j] == path[treeDepth - 1 - j]
      {
        order := order + [nodes[leaf].lockPath[i]];
        if !unlock(i) {
          StopsAt(unlock, treeDepth, path, nodes[leaf].lockPath, order, i);
          return false, order;
        }
        nodes := nodes[leaf := nodes[leaf].(lockPath := nodes[leaf].lockPath[i := 0])];
        i := i - 1;
      }
      StopsAt(unlock, treeDepth, path, nodes[leaf].lockPath, order, -1);
      ok := true;
    }

    /** trnmnt_tree_release on the last tree allocated. */
    method Release(root: nat, id: int, unlock: nat -> bool) returns (ok: bool, leaf: int, order: seq<int>)
      requires TreeAt(root)
      modifies this`nodes
      ensures leaf == FindLeaf(old(nodes), root, treeDepth + 1, 0, root + 1, id)
      ensures leaf != NULL <==> 0 <= id < Pow2(treeDepth)
      ensures leaf == NULL ==> !ok && nodes == old(nodes)
      ensures TreeAt(root)
      ensures leaf != NULL ==> 0 <= leaf < |nodes| == |old(nodes)| && (ok <==> AllOf(unlock, 0, treeDepth))
      ensures leaf != NULL ==> nodes == old(nodes)[leaf := old(nodes)[leaf].(lockPath := nodes[leaf].lockPath)]
      ensures leaf != NULL ==> |old(nodes)[leaf].lockPath| == treeDepth
      ensures leaf != NULL ==> Unlocked(unlock, treeDepth, old(nodes)[leaf].lockPath, nodes[leaf].lockPath, order)
      ensures leaf != NULL && ok ==> nodes[leaf].lockPath == seq(treeDepth, _ => 0) && |order| == treeDepth
    {
      leaf := FindLeaf(nodes, root, treeDepth + 1, 0, root + 1, id);
      FindLeafIff(nodes, root, treeDepth + 1, 0, root + 1, id);
      if leaf == NULL {
        return false, NULL, [];
      }
      ok, order := ReleasePath(leaf, unlock);
      assert AllOf(unlock, 1, treeDepth) || !ok;
      TreeKept(old(nodes), nodes, root, treeDepth + 1, mutexAlloc, firstCall, leaf);
    }
  }
}
