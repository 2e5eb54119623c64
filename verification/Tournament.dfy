/**
 The tournament tree of tree.c as a lock: trnmnt_tree_acquire and trnmnt_tree_release over the mutexes of
 `KthreadMutex`, for any depth, any set of threads with distinct leaf IDs and any interleaving of their steps. (There are
 mutexes for trees up to depth six: `TournamentTree`.)
 */
module Tournament {
  import opened Common
  import M = KthreadMutex

  // The node that the thread with leaf `id` locks at level l is number id / 2^(l+1) of that level; the root is the single
  // node of level depth - 1. A thread climbs from level 0 to the root and releases from the root down.
  //
  // `lock` may return 0 without the mutex (the hand-off rule of `KthreadMutex`); such a return is called a yield here.
  // Exclusion holds over all runs without a yield at the root, and a yield at the root always lets a second thread in.
  // What is said of contention is about runs without any yield, and `TournamentWaits` is about waiting. The parameter
  // `low` of the invariant covers all: it speaks of the levels from `low` up, for runs without a yield on these levels.

  datatype Node = Node(level: nat, index: nat)

  /** Climb(h): has passed levels 0 to h-1, at level h. Down(r): unlocking level r-1, then the levels below. */
  datatype Pc = Outside | Climb(h: nat) | Inside | Down(r: nat)

  datatype World = World(depth: nat, ids: seq<nat>, nodes: map<Node, M.Mutex>, ts: seq<Pc>)

  datatype Event = Enter(t: nat) | Leave(t: nat) | At(t: nat, e: M.Step)

  /** id divided by 2, k times. */
  function Up(id: nat, k: nat): (n: nat) {
    if k == 0 then id else Up(id, k - 1) / 2
  }

  /** The node at level l on the path from leaf `id` to the root. */
  function PathNode(id: nat, l: nat): (x: Node) {
    Node(l, Up(id, l + 1))
  }

  /** Leaves have distinct IDs below 2^depth, and every node on their paths has a mutex for these threads. */
  ghost predicate IsTree(w: World) {
    && w.depth >= 1
    && |w.ids| == |w.ts|
    && (forall t, u | 0 <= t < u < |w.ids| :: w.ids[t] != w.ids[u])
    && (forall t | 0 <= t < |w.ids| :: w.ids[t] < Pow2(w.depth))
    && (forall t, l | 0 <= t < |w.ids| && 0 <= l < w.depth :: PathNode(w.ids[t], l) in w.nodes)
    && (forall x | x in w.nodes :: |w.nodes[x].ts| == |w.ts|)
    && (forall t | 0 <= t < |w.ts| :: PcOk(w, w.ts[t]))
  }

  ghost predicate PcOk(w: World, p: Pc) {
    (p.Climb? ==> p.h < w.depth) && (p.Down? ==> 1 <= p.r <= w.depth)
  }

  /** The level a climbing or releasing thread works on. */
  function Level(p: Pc): (l: nat)
    requires p.Climb? || (p.Down? && p.r >= 1)
  {
    if p.Climb? then p.h else p.r - 1
  }

  ghost predicate Working(p: Pc) {
    p.Climb? || p.Down?
  }

  function Here(w: World, t: nat): (x: Node)
    requires IsTree(w) && t < |w.ts| && Working(w.ts[t])
    ensures x in w.nodes
  {
    assert PcOk(w, w.ts[t]);
    PathNode(w.ids[t], Level(w.ts[t]))
  }

  ghost predicate Enabled(w: World, v: Event)
    requires IsTree(w)
  {
    && v.t < |w.ts|
    && match v
       case Enter(t) => w.ts[t].Outside?
       case Leave(t) => w.ts[t].Inside?
       case At(t, e) =>
         && Working(w.ts[t]) && e.t == t && M.Enabled(w.nodes[Here(w, t)], e)
         && (if w.ts[t].Climb? then e.Lock? || e.Retest? || e.Spurious? else e.UnlockCheck? || e.UnlockDo? || e.Wakeup?)
  }

  /** Where a thread is after the mutex step e has left it in state q at its node. */
  function Advance(depth: nat, p: Pc, e: M.Step, q: M.Pc): (r: Pc)
    requires p.Climb? || (p.Down? && p.r >= 1)
  {
    if p.Climb? then
      if !q.Idle? || e.Spurious? then p
      else if p.h + 1 == depth then Inside
      else Climb(p.h + 1)
    else if e.Wakeup? then
      if p.r == 1 then Outside else Down(p.r - 1)
    else if q.Idle? then Outside     // unlock returned -1, and so does the release
    else p
  }

  function Next(w: World, v: Event): (r: World)
    requires IsTree(w) && Enabled(w, v)
  {
    match v
    case Enter(t) => w.(ts := w.ts[t := Climb(0)])
    case Leave(t) => w.(ts := w.ts[t := Down(w.depth)])
    case At(t, e) =>
      var x := Here(w, t);
      var m := M.Next(w.nodes[x], e);
      w.(nodes := w.nodes[x := m], ts := w.ts[t := Advance(w.depth, w.ts[t], e, m.ts[t])])
  }

  /** The event is a lock that returns 0 without the mutex. */
  ghost predicate Yields(w: World, v: Event)
    requires IsTree(w) && Enabled(w, v)
  {
    && v.At? && w.ts[v.t].Climb? && !v.e.Spurious?
    && var m := M.Next(w.nodes[Here(w, v.t)], v.e);
    && m.ts[v.t].Idle? && !(m.locked && m.tid == M.Id(v.t))
  }

  ghost predicate YieldsFrom(w: World, v: Event, low: nat)
    requires IsTree(w) && Enabled(w, v)
  {
    Yields(w, v) && Level(w.ts[v.t]) >= low
  }

  // ------------------------------------------------------------------ the invariant

  /** How many levels, counted from the leaf, the thread has passed and not given back. */
  ghost function Held(w: World, t: nat): (h: nat)
    requires IsTree(w) && t < |w.ts|
  {
    match w.ts[t]
    case Outside => 0
    case Climb(h) => h
    case Inside => w.depth
    case Down(r) =>
      assert PcOk(w, w.ts[t]);
      if w.nodes[Here(w, t)].ts[t].Waking? then r - 1 else r
  }

  ghost predicate Owns(w: World, t: nat, x: Node)
    requires x in w.nodes
  {
    w.nodes[x].locked && w.nodes[x].tid == M.Id(t)
  }

  /** A thread is inside a mutex operation only at the node it works on. */
  ghost predicate PlaceOk(w: World, t: nat, x: Node)
    requires IsTree(w) && t < |w.ts| && x in w.nodes
  {
    var q := w.nodes[x].ts[t];
    q.Idle? ||
    (&& Working(w.ts[t]) && Here(w, t) == x
     && (if w.ts[t].Climb? then M.IsWaiting(q) else q.Unlocking? || q.Waking?))
  }

  ghost predicate HoldsOk(w: World, t: nat, l: nat)
    requires IsTree(w) && t < |w.ts|
  {
    l < Held(w, t) <= w.depth ==> Owns(w, t, PathNode(w.ids[t], l))
  }

  /** A locked node belongs to a thread that passed it. */
  ghost predicate OwnerOk(w: World, x: Node)
    requires IsTree(w) && x in w.nodes
  {
    w.nodes[x].locked ==>
      var u := w.nodes[x].tid - 1;
      0 <= u < |w.ts| && PathNode(w.ids[u], x.level) == x && x.level < Held(w, u)
  }

  ghost predicate Inv(w: World, low: nat) {
    && IsTree(w)
    && (forall x | x in w.nodes && x.level >= low :: M.Inv(w.nodes[x]) && OwnerOk(w, x))
    && (forall t, x | 0 <= t < |w.ts| && x in w.nodes && x.level >= low :: PlaceOk(w, t, x))
    && (forall t, l: nat | 0 <= t < |w.ts| && l >= low :: HoldsOk(w, t, l))
  }

  // ------------------------------------------------------------------ every step keeps it

  /** What a mutex step e from m to r means for the threads at the node and for its owner. */
  ghost predicate StepFacts(m: M.Mutex, e: M.Step, r: M.Mutex)
    requires e.t < |m.ts| == |r.ts|
  {
    && M.Inv(r)
    && (forall u | 0 <= u < |m.ts| && u != e.t ::
          r.ts[u] == m.ts[u] || (m.ts[u].Sleeping? && r.ts[u] == M.Woken(m.ts[u].counted)))
    && (e.Lock? || e.Retest? ==> r.ts[e.t].Idle? || M.IsWaiting(r.ts[e.t]))
    && (e.Spurious? ==> r.ts[e.t].Woken?)
    && (e.UnlockCheck? ==> r.ts[e.t].Unlocking?)
    && (e.UnlockDo? ==> r.ts[e.t].Waking? && !r.locked)
    && (e.Wakeup? ==> r.ts[e.t].Idle?)
    && (m.locked && !e.UnlockDo? ==> r.locked && r.tid == m.tid)
    && (!m.locked && r.locked ==> (e.Lock? || e.Retest?) && r.tid == M.Id(e.t) && r.ts[e.t].Idle?)
    && (m.locked && (e.Lock? || e.Retest?) ==> M.IsWaiting(r.ts[e.t]))
  }

  lemma MutexStep(m: M.Mutex, e: M.Step)
    requires M.Inv(m) && M.Enabled(m, e)
    requires e.UnlockCheck? || e.UnlockDo? ==> m.locked && m.tid == M.Id(e.t)
    ensures StepFacts(m, e, M.Next(m, e))
  {
    M.StepKeepsIff(m, e);
    assert M.ThreadOk(m, e.t);
  }

  lemma NextIsTree(w: World, v: Event)
    requires IsTree(w) && Enabled(w, v)
    ensures IsTree(Next(w, v))
  {
    assert PcOk(w, w.ts[v.t]);
  }

  /** The node a thread unlocks is its own. */
  lemma UnlocksOwn(w: World, t: nat, e: M.Step, low: nat)
    requires Inv(w, low) && Enabled(w, At(t, e)) && Level(w.ts[t]) >= low
    requires e.UnlockCheck? || e.UnlockDo?
    ensures Owns(w, t, Here(w, t)) && Held(w, t) == w.ts[t].r
  {
    assert PcOk(w, w.ts[t]);
    assert PlaceOk(w, t, Here(w, t));
    assert HoldsOk(w, t, Level(w.ts[t]));
  }

  lemma AtHighMutex(w: World, t: nat, e: M.Step, low: nat)
    requires Inv(w, low) && Enabled(w, At(t, e)) && Level(w.ts[t]) >= low
    ensures var m := w.nodes[Here(w, t)]; StepFacts(m, e, M.Next(m, e))
    ensures PcOk(w, w.ts[t]) && PlaceOk(w, t, Here(w, t))
  {
    assert PcOk(w, w.ts[t]);
    if e.UnlockCheck? || e.UnlockDo? {
      UnlocksOwn(w, t, e, low);
    }
    MutexStep(w.nodes[Here(w, t)], e);
  }

  /** A step of t at a node leaves the other threads' holds as they are. */
  lemma HeldOthers(w: World, t: nat, e: M.Step, u: nat)
    requires IsTree(w) && Enabled(w, At(t, e)) && u < |w.ts| && u != t
    requires IsTree(Next(w, At(t, e)))
    requires forall y | 0 <= y < |w.ts| && y != t ::
               M.Next(w.nodes[Here(w, t)], e).ts[y].Waking? == w.nodes[Here(w, t)].ts[y].Waking?
    ensures Held(Next(w, At(t, e)), u) == Held(w, u)
  {
  }

  /** What a step of t above `low` does to its own holds. */
  lemma HeldMover(w: World, t: nat, e: M.Step, low: nat)
    requires Inv(w, low) && Enabled(w, At(t, e)) && Level(w.ts[t]) >= low && !Yields(w, At(t, e))
    requires IsTree(Next(w, At(t, e)))
    ensures var r, l := Next(w, At(t, e)), Level(w.ts[t]);
            var m := r.nodes[Here(w, t)];
            && (w.ts[t].Climb? && (m.ts[t].Idle? && !e.Spurious?) ==> Held(r, t) == l + 1 && m.locked && m.tid == M.Id(t))
            && (w.ts[t].Climb? && !(m.ts[t].Idle? && !e.Spurious?) ==> Held(r, t) == l)
            && (e.UnlockCheck? ==> Held(r, t) == l + 1)
            && (e.UnlockDo? ==> Held(r, t) == l)
            && (e.Wakeup? ==> Held(w, t) == l && Held(r, t) <= l && (Held(r, t) < l ==> low == l))
  {
    var r, x := Next(w, At(t, e)), Here(w, t);
    assert PcOk(w, w.ts[t]);
    assert PlaceOk(w, t, x);
    if e.UnlockCheck? || e.UnlockDo? {
      UnlocksOwn(w, t, e, low);
    }
    MutexStep(w.nodes[x], e);
    if e.Wakeup? && w.ts[t].r > 1 {
      var y := PathNode(w.ids[t], w.ts[t].r - 2);
      assert y in w.nodes && y != x;
      if y.level >= low {
        assert PlaceOk(w, t, y);
      }
    }
  }

  lemma AtHighPlaces(w: World, t: nat, e: M.Step, low: nat, u: nat, y: Node)
    requires Inv(w, low) && Enabled(w, At(t, e)) && Level(w.ts[t]) >= low
    requires u < |w.ts| && y in w.nodes && y.level >= low
    requires IsTree(Next(w, At(t, e)))
    ensures PlaceOk(Next(w, At(t, e)), u, y)
  {
    var x := Here(w, t);
    assert PlaceOk(w, u, y);
    AtHighMutex(w, t, e, low);
  }

  lemma AtHighHolds(w: World, t: nat, e: M.Step, low: nat, u: nat, l: nat)
    requires Inv(w, low) && Enabled(w, At(t, e)) && Level(w.ts[t]) >= low && !Yields(w, At(t, e))
    requires u < |w.ts| && l >= low
    requires IsTree(Next(w, At(t, e)))
    ensures HoldsOk(Next(w, At(t, e)), u, l)
  {
    var r, x := Next(w, At(t, e)), Here(w, t);
    assert HoldsOk(w, u, l);
    AtHighMutex(w, t, e, low);
    if e.UnlockDo? {
      UnlocksOwn(w, t, e, low);
    }
    HeldMover(w, t, e, low);
    if u != t {
      HeldOthers(w, t, e, u);
    }
  }

  lemma AtHighOwner(w: World, t: nat, e: M.Step, low: nat, y: Node)
    requires Inv(w, low) && Enabled(w, At(t, e)) && Level(w.ts[t]) >= low && !Yields(w, At(t, e))
    requires y in w.nodes && y.level >= low
    requires IsTree(Next(w, At(t, e)))
    ensures OwnerOk(Next(w, At(t, e)), y)
  {
    var r, x := Next(w, At(t, e)), Here(w, t);
    assert OwnerOk(w, y);
    AtHighMutex(w, t, e, low);
    HeldMover(w, t, e, low);
    if r.nodes[y].locked {
      var u := r.nodes[y].tid - 1;
      if u != t && 0 <= u < |w.ts| {
        HeldOthers(w, t, e, u);
      }
    }
  }

  lemma AtHighKeeps(w: World, t: nat, e: M.Step, low: nat)
    requires Inv(w, low) && Enabled(w, At(t, e)) && Level(w.ts[t]) >= low && !Yields(w, At(t, e))
    ensures Inv(Next(w, At(t, e)), low)
  {
    NextIsTree(w, At(t, e));
    var r := Next(w, At(t, e));
    forall y | y in r.nodes && y.level >= low
      ensures M.Inv(r.nodes[y]) && OwnerOk(r, y)
    {
      AtHighMutex(w, t, e, low);
      AtHighOwner(w, t, e, low, y);
    }
    forall u, y | 0 <= u < |w.ts| && y in r.nodes && y.level >= low
      ensures PlaceOk(r, u, y)
    {
      AtHighPlaces(w, t, e, low, u, y);
    }
    forall u, l: nat | 0 <= u < |w.ts| && l >= low
      ensures HoldsOk(r, u, l)
    {
      AtHighHolds(w, t, e, low, u, l);
    }
  }

  /** Steps below `low` do not matter to the levels above, whatever the mutexes there do. */
  lemma AtLowHeld(w: World, t: nat, e: M.Step, low: nat, u: nat)
    requires Inv(w, low) && Enabled(w, At(t, e)) && Level(w.ts[t]) < low && u < |w.ts|
    requires IsTree(Next(w, At(t, e)))
    ensures var r := Next(w, At(t, e));
            (Held(w, u) <= low && Held(r, u) <= low) || (u != t && Held(r, u) == Held(w, u))
  {
    assert PcOk(w, w.ts[t]) && PcOk(w, w.ts[u]);
    var r, x := Next(w, At(t, e)), Here(w, t);
    if u != t && Working(w.ts[u]) && Here(w, u) != x {
      assert Here(r, u) == Here(w, u);
    }
  }

  lemma AtLowOwner(w: World, t: nat, e: M.Step, low: nat, y: Node)
    requires Inv(w, low) && Enabled(w, At(t, e)) && Level(w.ts[t]) < low && y in w.nodes && y.level >= low
    requires IsTree(Next(w, At(t, e)))
    ensures Next(w, At(t, e)).nodes[y] == w.nodes[y] && OwnerOk(Next(w, At(t, e)), y)
  {
    assert PcOk(w, w.ts[t]) && Here(w, t).level < low;
    assert OwnerOk(w, y);
    if w.nodes[y].locked {
      AtLowHeld(w, t, e, low, w.nodes[y].tid - 1);
    }
  }

  lemma AtLowKeeps(w: World, t: nat, e: M.Step, low: nat)
    requires Inv(w, low) && Enabled(w, At(t, e)) && Level(w.ts[t]) < low
    ensures Inv(Next(w, At(t, e)), low)
  {
    NextIsTree(w, At(t, e));
    var r, x := Next(w, At(t, e)), Here(w, t);
    assert PcOk(w, w.ts[t]) && x.level < low;
    forall y | y in r.nodes && y.level >= low
      ensures M.Inv(r.nodes[y]) && OwnerOk(r, y)
    {
      AtLowOwner(w, t, e, low, y);
    }
    forall u, y | 0 <= u < |w.ts| && y in r.nodes && y.level >= low
      ensures PlaceOk(r, u, y)
    {
      assert PlaceOk(w, u, y);
    }
    forall u, l: nat | 0 <= u < |w.ts| && l >= low
      ensures HoldsOk(r, u, l)
    {
      assert HoldsOk(w, u, l);
      AtLowHeld(w, t, e, low, u);
    }
  }

  lemma EnterLeaveKeeps(w: World, v: Event, low: nat)
    requires Inv(w, low) && Enabled(w, v) && !v.At?
    ensures Inv(Next(w, v), low)
  {
    NextIsTree(w, v);
    var r := Next(w, v);
    forall x | x in w.nodes && x.level >= low
      ensures PlaceOk(r, v.t, x)
    {
      assert PlaceOk(w, v.t, x);
    }
    forall u | 0 <= u < |w.ts|
      ensures Held(r, u) == Held(w, u) || (Held(w, u) <= low && Held(r, u) <= low)
    {
      if u == v.t && v.Leave? && w.depth - 1 >= low {
        assert PlaceOk(w, u, PathNode(w.ids[u], w.depth - 1));
      }
    }
    forall u, x | 0 <= u < |w.ts| && x in w.nodes && x.level >= low
      ensures PlaceOk(r, u, x)
    {
      assert PlaceOk(w, u, x);
    }
    forall x | x in w.nodes && x.level >= low
      ensures OwnerOk(r, x)
    {
      assert OwnerOk(w, x);
    }
    forall u, l: nat | 0 <= u < |w.ts| && l >= low
      ensures HoldsOk(r, u, l)
    {
      assert HoldsOk(w, u, l);
    }
  }

  /** Every step that does not yield at level `low` or above keeps the invariant. */
  lemma StepKeeps(w: World, v: Event, low: nat)
    requires Inv(w, low) && Enabled(w, v) && !YieldsFrom(w, v, low)
    ensures Inv(Next(w, v), low)
  {
    if !v.At? {
      EnterLeaveKeeps(w, v, low);
    } else if Level(w.ts[v.t]) >= low {
      AtHighKeeps(w, v.t, v.e, low);
    } else {
      AtLowKeeps(w, v.t, v.e, low);
    }
  }

  // ------------------------------------------------------------------ whole runs

  ghost predicate Init(w: World) {
    && IsTree(w)
    && (forall t | 0 <= t < |w.ts| :: w.ts[t] == Outside)
    && (forall x | x in w.nodes :: w.nodes[x] == M.Init(|w.ts|))
  }

  /** A run from w to r in which no lock on level `low` or above yields. */
  ghost predicate Runs(w: World, vs: seq<Event>, r: World, low: nat)
    decreases |vs|
  {
    if vs == [] then r == w
    else
      && IsTree(w) && Enabled(w, vs[0]) && !YieldsFrom(w, vs[0], low)
      && Runs(Next(w, vs[0]), vs[1..], r, low)
  }

  ghost predicate Reachable(r: World, low: nat) {
    exists w: World, vs: seq<Event> :: Init(w) && Runs(w, vs, r, low)
  }

  lemma {:induction false} RunKeeps(w: World, vs: seq<Event>, r: World, low: nat)
    requires Inv(w, low) && Runs(w, vs, r, low)
    ensures Inv(r, low)
    decreases |vs|
  {
    if vs != [] {
      StepKeeps(w, vs[0], low);
      RunKeeps(Next(w, vs[0]), vs[1..], r, low);
    }
  }

  lemma InitInv(w: World, low: nat)
    requires Init(w)
    ensures Inv(w, low)
  {
    M.InitInv(|w.ts|);
  }

  lemma ReachableInv(r: World, low: nat)
    requires Reachable(r, low)
    ensures Inv(r, low)
  {
    var w: World, vs: seq<Event> :| Init(w) && Runs(w, vs, r, low);
    InitInv(w, low);
    RunKeeps(w, vs, r, low);
  }

  // ------------------------------------------------------------------ exclusion

  lemma {:induction false} UpZero(id: nat, k: nat)
    requires id < Pow2(k)
    ensures Up(id, k) == 0
  {
    UpBelow(id, k, k);
  }

  lemma {:induction false} UpBelow(id: nat, k: nat, n: nat)
    requires id < Pow2(n) && k <= n
    ensures Up(id, k) < Pow2(n - k)
  {
    if k > 0 {
      UpBelow(id, k - 1, n);
    }
  }

  /** The thread has acquired the tree and not yet given the root back. */
  ghost predicate PastAcquire(w: World, t: nat)
    requires IsTree(w) && t < |w.ts|
  {
    Held(w, t) == w.depth
  }

  /** Over all runs without a yield at the root, at most one thread is past the acquire. */
  lemma AtMostOneInside(w: World, t: nat, u: nat)
    requires IsTree(w) && Reachable(w, w.depth - 1)
    requires t < |w.ts| && u < |w.ts| && PastAcquire(w, t) && PastAcquire(w, u)
    ensures t == u
  {
    ReachableInv(w, w.depth - 1);
    UpZero(w.ids[t], w.depth);
    UpZero(w.ids[u], w.depth);
    assert HoldsOk(w, t, w.depth - 1) && HoldsOk(w, u, w.depth - 1);
  }

  /** When a lock yields: the last owner comes back to its free node while another thread waits there. */
  lemma YieldsIff(w: World, v: Event, low: nat)
    requires Inv(w, low) && Enabled(w, v) && v.At? && Level(w.ts[v.t]) >= low
    ensures Yields(w, v) <==>
              && v.e.Lock?
              && var m := w.nodes[Here(w, v.t)];
              && !m.locked && m.tid == M.Id(v.t)
              && exists u :: 0 <= u < |m.ts| && M.IsWaiting(m.ts[u])
  {
    var m := w.nodes[Here(w, v.t)];
    assert M.ThreadOk(m, v.t);
    if !m.locked {
      M.CountZeroIff(m);
    }
  }

  /** A thread that waits at a free root it did not own last gets in. */
  lemma WaiterGetsIn(w: World, u: nat) returns (r: World)
    requires IsTree(w) && u < |w.ts| && w.ts[u] == Climb(w.depth - 1)
    requires var m := w.nodes[Here(w, u)]; M.IsWaiting(m.ts[u]) && !m.locked && m.tid != M.Id(u)
    ensures |r.ts| == |w.ts| && r.ts == w.ts[u := Inside]
    ensures exists vs :: RunsFreely(w, vs, r)
  {
    var m, wake, take := w.nodes[Here(w, u)], At(u, M.Spurious(u)), At(u, M.Retest(u));
    if m.ts[u].Woken? {
      r := Next(w, take);
      assert RunsFreely(r, [], r);
      assert RunsFreely(w, [take], r);
    } else {
      NextIsTree(w, wake);
      var w1 := Next(w, wake);
      assert w1.ts == w.ts;
      r := Next(w1, take);
      assert RunsFreely(r, [], r);
      assert RunsFreely(w1, [take], r);
      assert [wake, take][1..] == [take];
      assert RunsFreely(w, [wake, take], r);
    }
  }

  /**
   A yield at the root always breaks exclusion: the thread that yields is inside without the root, and a
   thread that waits there can take the root and be inside too.
   */
  lemma RootYieldLetsTwoIn(w: World, t: nat) returns (u: nat, r: World)
    requires IsTree(w) && Reachable(w, w.depth - 1)
    requires Enabled(w, At(t, M.Lock(t))) && Yields(w, At(t, M.Lock(t))) && w.ts[t] == Climb(w.depth - 1)
    ensures u < |w.ts| && u != t
    ensures exists vs :: RunsFreely(w, vs, r)
    ensures |r.ts| == |w.ts| && r.ts[t] == Inside && r.ts[u] == Inside
  {
    ReachableInv(w, w.depth - 1);
    var x, v := Here(w, t), At(t, M.Lock(t));
    var m := w.nodes[x];
    YieldsIff(w, v, w.depth - 1);
    u :| 0 <= u < |m.ts| && M.IsWaiting(m.ts[u]);
    assert PlaceOk(w, u, x) && PlaceOk(w, t, x) && M.ThreadOk(m, u);
    NextIsTree(w, v);
    var w1 := Next(w, v);
    r := WaiterGetsIn(w1, u);
    var vs :| RunsFreely(w1, vs, r);
    assert ([v] + vs)[1..] == vs;
    assert RunsFreely(w, [v] + vs, r);
  }

  /** Any run at all. */
  ghost predicate RunsFreely(w: World, vs: seq<Event>, r: World)
    decreases |vs|
  {
    if vs == [] then r == w
    else IsTree(w) && Enabled(w, vs[0]) && RunsFreely(Next(w, vs[0]), vs[1..], r)
  }

  /** Two threads at a tree of depth 1. */
  ghost function Two(m: M.Mutex, p: Pc, q: Pc): (w: World) {
    World(1, [0, 1], map[Node(0, 0) := m], [p, q])
  }

  lemma TwoHere(m: M.Mutex, p: Pc, q: Pc, t: nat)
    requires t < 2 && IsTree(Two(m, p, q)) && Working([p, q][t])
    ensures Here(Two(m, p, q), t) == Node(0, 0)
  {
    assert Up(0, 1) == 0 && Up(1, 1) == 0;
    assert PcOk(Two(m, p, q), [p, q][t]);
  }

  lemma TwoStep(m: M.Mutex, p: Pc, q: Pc, t: nat, e: M.Step)
    requires t < 2 && |m.ts| == 2 && e.t == t && M.Enabled(m, e)
    requires IsTree(Two(m, p, q))
    requires var s := [p, q][t];
             (s == Climb(0) && (e.Lock? || e.Retest?)) || (s == Down(1) && (e.UnlockCheck? || e.UnlockDo? || e.Wakeup?))
    ensures Enabled(Two(m, p, q), At(t, e))
    ensures var n := M.Next(m, e);
            var s := Advance(1, [p, q][t], e, n.ts[t]);
            var r := if t == 0 then Two(n, s, q) else Two(n, p, s);
            Next(Two(m, p, q), At(t, e)) == r && IsTree(r)
  {
    var w := Two(m, p, q);
    assert Up(0, 1) == 0 && Up(1, 1) == 0;
    assert Here(w, t) == Node(0, 0);
    NextIsTree(w, At(t, e));
    var n := M.Next(m, e);
    assert w.nodes[Node(0, 0) := n] == map[Node(0, 0) := n];
  }

  lemma TwoIsTree(m: M.Mutex, p: Pc, q: Pc)
    requires |m.ts| == 2 && p in {Outside, Climb(0), Inside, Down(1)} && q in {Outside, Climb(0), Inside, Down(1)}
    ensures IsTree(Two(m, p, q))
  {
    assert Up(0, 1) == 0 && Up(1, 1) == 0;
    assert Pow2(1) == 2;
  }

  lemma {:induction false} RunsAppend(w: World, vs: seq<Event>, r: World, v: Event)
    requires Runs(w, vs, r, 0) && IsTree(r) && Enabled(r, v) && !Yields(r, v)
    ensures Runs(w, vs + [v], Next(r, v), 0)
    decreases |vs|
  {
    if vs == [] {
      assert (vs + [v])[1..] == [];
      assert Runs(Next(r, v), [], Next(r, v), 0);
    } else {
      RunsAppend(Next(w, vs[0]), vs[1..], r, v);
      assert (vs + [v])[1..] == vs[1..] + [v];
    }
  }

  ghost predicate TwoReached(w: World, m: M.Mutex, p: Pc, q: Pc) {
    exists vs :: Runs(w, vs, Two(m, p, q), 0)
  }

  lemma ReachAt(w: World, m: M.Mutex, p: Pc, q: Pc, t: nat, e: M.Step, n: M.Mutex, p': Pc, q': Pc)
    requires TwoReached(w, m, p, q) && IsTree(Two(m, p, q))
    requires t < 2 && |m.ts| == 2 && e.t == t && M.Enabled(m, e)
    requires var s := [p, q][t];
             (s == Climb(0) && (e.Lock? || e.Retest?)) || (s == Down(1) && (e.UnlockCheck? || e.UnlockDo? || e.Wakeup?))
    requires n == M.Next(m, e) && ([p, q][t] == Climb(0) && n.ts[t].Idle? ==> n.locked && n.tid == M.Id(t))
    requires var s := Advance(1, [p, q][t], e, n.ts[t]); if t == 0 then p' == s && q' == q else p' == p && q' == s
    ensures TwoReached(w, n, p', q') && IsTree(Two(n, p', q'))
  {
    var vs :| Runs(w, vs, Two(m, p, q), 0);
    TwoStep(m, p, q, t, e);
    TwoHere(m, p, q, t);
    RunsAppend(w, vs, Two(m, p, q), At(t, e));
  }

  lemma ReachMove(w: World, m: M.Mutex, p: Pc, q: Pc, v: Event, p': Pc, q': Pc)
    requires TwoReached(w, m, p, q) && IsTree(Two(m, p, q)) && |m.ts| == 2
    requires !v.At? && Enabled(Two(m, p, q), v)
    requires Next(Two(m, p, q), v).ts == [p', q']
    ensures TwoReached(w, m, p', q') && IsTree(Two(m, p', q'))
  {
    var vs :| Runs(w, vs, Two(m, p, q), 0);
    NextIsTree(Two(m, p, q), v);
    RunsAppend(w, vs, Two(m, p, q), v);
    assert Next(Two(m, p, q), v) == Two(m, p', q');
  }

  /** The mutex through a lock by thread 0, a wait by thread 1 and the unlock by thread 0. */
  ghost function Trace(i: nat): (m: M.Mutex)
    requires i < 6
    ensures |m.ts| == 2
  {
    if i == 0 then M.Mutex(false, 0, 0, [M.Idle, M.Idle])
    else if i == 1 then M.Mutex(true, 1, 0, [M.Idle, M.Idle])
    else if i == 2 then M.Mutex(true, 1, 1, [M.Idle, M.Sleeping(true)])
    else if i == 3 then M.Mutex(true, 1, 1, [M.Unlocking, M.Sleeping(true)])
    else if i == 4 then M.Mutex(false, 1, 1, [M.Waking, M.Sleeping(true)])
    else M.Mutex(false, 1, 1, [M.Idle, M.Woken(true)])
  }

  lemma TraceSteps()
    ensures M.Next(Trace(0), M.Lock(0)) == Trace(1) && M.Next(Trace(1), M.Lock(1)) == Trace(2)
    ensures M.Next(Trace(2), M.UnlockCheck(0)) == Trace(3) && M.Next(Trace(3), M.UnlockDo(0)) == Trace(4)
    ensures M.Next(Trace(4), M.Wakeup(0)) == Trace(5)
  {
  }

  lemma SecondWaits(w: World)
    requires w == Two(Trace(0), Outside, Outside)
    ensures TwoReached(w, Trace(2), Inside, Climb(0)) && IsTree(Two(Trace(2), Inside, Climb(0)))
  {
    TwoIsTree(Trace(0), Outside, Outside);
    assert Runs(w, [], w, 0);
    TraceSteps();
    ReachMove(w, Trace(0), Outside, Outside, Enter(0), Climb(0), Outside);
    ReachAt(w, Trace(0), Climb(0), Outside, 0, M.Lock(0), Trace(1), Inside, Outside);
    ReachMove(w, Trace(1), Inside, Outside, Enter(1), Inside, Climb(0));
    ReachAt(w, Trace(1), Inside, Climb(0), 1, M.Lock(1), Trace(2), Inside, Climb(0));
  }

  lemma FirstReleases(w: World)
    requires TwoReached(w, Trace(2), Inside, Climb(0)) && IsTree(Two(Trace(2), Inside, Climb(0)))
    ensures TwoReached(w, Trace(5), Outside, Climb(0)) && IsTree(Two(Trace(5), Outside, Climb(0)))
  {
    TraceSteps();
    ReachMove(w, Trace(2), Inside, Climb(0), Leave(0), Down(1), Climb(0));
    ReachAt(w, Trace(2), Down(1), Climb(0), 0, M.UnlockCheck(0), Trace(3), Down(1), Climb(0));
    ReachAt(w, Trace(3), Down(1), Climb(0), 0, M.UnlockDo(0), Trace(4), Down(1), Climb(0));
    ReachAt(w, Trace(4), Down(1), Climb(0), 0, M.Wakeup(0), Trace(5), Outside, Climb(0));
  }

  lemma LastOwnerYields(r: World)
    requires r == Two(Trace(5), Climb(0), Climb(0)) && IsTree(r)
    ensures Enabled(r, At(0, M.Lock(0))) && Yields(r, At(0, M.Lock(0)))
  {
    assert Here(r, 0) == Node(0, 0) by {
      assert Up(0, 1) == 0;
    }
  }

  /**
   Such a yield happens, after a run without any: thread 0 acquires, thread 1 waits, thread 0 releases and acquires again
   before thread 1 has run.
   */
  lemma RootYieldHappens() returns (w: World, r: World)
    ensures Init(w) && w.depth == 1 && exists vs :: Runs(w, vs, r, 0)
    ensures IsTree(r) && |r.ts| == 2 && r.depth == 1 && r.ts[0] == Climb(0)
    ensures Enabled(r, At(0, M.Lock(0))) && Yields(r, At(0, M.Lock(0)))
  {
    w := Two(Trace(0), Outside, Outside);
    assert Init(w) by {
      TwoIsTree(Trace(0), Outside, Outside);
      assert Trace(0) == M.Init(2);
    }
    SecondWaits(w);
    FirstReleases(w);
    ReachMove(w, Trace(5), Outside, Climb(0), Enter(0), Climb(0), Climb(0));
    r := Two(Trace(5), Climb(0), Climb(0));
    LastOwnerYields(r);
  }

  lemma {:induction false} RunsJoin(w: World, vs: seq<Event>, r: World, us: seq<Event>, q: World)
    requires Runs(w, vs, r, 0) && RunsFreely(r, us, q)
    ensures RunsFreely(w, vs + us, q)
    decreases |vs|
  {
    if vs == [] {
      assert vs + us == us;
    } else {
      RunsJoin(Next(w, vs[0]), vs[1..], r, us, q);
      assert (vs + us)[1..] == vs[1..] + us;
    }
  }

  /** The exclusion that the tree is for does fail: a run from the start to two threads inside. */
  lemma ExclusionFails() returns (w: World, vs: seq<Event>, r: World)
    ensures Init(w) && RunsFreely(w, vs, r) && |r.ts| == 2 && r.ts[0] == Inside && r.ts[1] == Inside
  {
    var k: World;
    w, k := RootYieldHappens();
    var us: seq<Event> :| Runs(w, us, k, 0);
    vs, r := FailsFrom(w, us, k);
  }

  lemma FailsFrom(w: World, us: seq<Event>, k: World) returns (vs: seq<Event>, r: World)
    requires Init(w) && Runs(w, us, k, 0) && IsTree(k) && |k.ts| == 2 && k.depth == 1 && k.ts[0] == Climb(0)
    requires Enabled(k, At(0, M.Lock(0))) && Yields(k, At(0, M.Lock(0)))
    ensures RunsFreely(w, vs, r) && |r.ts| == 2 && r.ts[0] == Inside && r.ts[1] == Inside
  {
    assert Reachable(k, 0);
    var u: nat;
    u, r := RootYieldLetsTwoIn(k, 0);
    var more :| RunsFreely(k, more, r);
    RunsJoin(w, us, k, more, r);
    vs := us + more;
  }

  // ------------------------------------------------------------------ contention

  /** The thread is at node x or has passed it and not given it back. */
  ghost predicate Contends(w: World, t: nat, x: Node)
    requires IsTree(w) && t < |w.ts|
  {
    x.level < w.depth && PathNode(w.ids[t], x.level) == x && !w.ts[t].Outside? && Held(w, t) >= x.level
  }

  /** The child of x through which a contender came: the number of its leaf or of the node below. */
  ghost function From(w: World, t: nat, x: Node): (n: nat)
    requires IsTree(w) && t < |w.ts| && Contends(w, t, x)
    ensures n / 2 == x.index
  {
    Up(w.ids[t], x.level)
  }

  /** Threads that contend at a node came through different children. */
  lemma ContendersComeApart(w: World, t: nat, u: nat, x: Node)
    requires Inv(w, 0) && t < |w.ts| && u < |w.ts| && t != u && Contends(w, t, x) && Contends(w, u, x)
    ensures From(w, t, x) != From(w, u, x)
  {
    if x.level > 0 {
      assert HoldsOk(w, t, x.level - 1) && HoldsOk(w, u, x.level - 1);
    }
  }

  /** Over all runs without yields, at most two threads contend at any node. */
  lemma AtMostTwoContend(w: World, x: Node, t: nat, u: nat, v: nat)
    requires Reachable(w, 0) && IsTree(w) && t < |w.ts| && u < |w.ts| && v < |w.ts|
    requires Contends(w, t, x) && Contends(w, u, x) && Contends(w, v, x)
    ensures t == u || u == v || t == v
  {
    ReachableInv(w, 0);
    if t != u && u != v && t != v {
      ContendersComeApart(w, t, u, x);
      ContendersComeApart(w, u, v, x);
      ContendersComeApart(w, t, v, x);
    }
  }
}
