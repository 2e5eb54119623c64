/**
 Who waits for whom in the tournament tree. With yields at the lowest level only, waiting goes up the tree and no chain
 of waiting threads closes. From level 1 on a yield can leave a thread waiting for itself: its release fails at the node
 it does not have, and the nodes below stay locked.
 */
module TournamentWaits {
  import opened Common
  import opened Tournament
  import M = KthreadMutex

  /** t waits for u: it climbs, and the node it is at is locked by u. */
  ghost predicate WaitsFor(w: World, t: nat, u: nat)
    requires IsTree(w) && t < |w.ts| && u < |w.ts|
  {
    w.ts[t].Climb? && Owns(w, u, Here(w, t)) && M.IsWaiting(w.nodes[Here(w, t)].ts[t])
  }

  // ------------------------------------------------------------------ yields at level 0

  /** A locked node of level 0 belongs to a thread that has passed it and not released it. */
  ghost predicate LeafOwner(w: World, x: Node)
    requires IsTree(w) && x in w.nodes
  {
    w.nodes[x].locked ==>
      var u := w.nodes[x].tid - 1;
      && 0 <= u < |w.ts| && PathNode(w.ids[u], 0) == x
      && w.ts[u] != Outside && w.ts[u] != Climb(0) && !w.nodes[x].ts[u].Waking?
  }

  ghost predicate LeavesOk(w: World) {
    && Inv(w, 1)
    && (forall x | x in w.nodes && x.level == 0 :: LeafOwner(w, x))
    && (forall t, x | 0 <= t < |w.ts| && x in w.nodes && x.level == 0 :: PlaceOk(w, t, x))
  }

  /** What any mutex step of a thread leaves of the other threads at the node. */
  lemma OthersAtNode(m: M.Mutex, e: M.Step, u: nat)
    requires M.Enabled(m, e) && u < |m.ts| && u != e.t
    ensures M.Next(m, e).ts[u] == m.ts[u] || (m.ts[u].Sleeping? && M.Next(m, e).ts[u] == M.Woken(m.ts[u].counted))
  {
  }

  /** A step at a node of level 0. */
  lemma LeafStep(w: World, t: nat, e: M.Step, x: Node)
    requires LeavesOk(w) && Enabled(w, At(t, e)) && Level(w.ts[t]) == 0 && x in w.nodes && x.level == 0
    requires IsTree(Next(w, At(t, e)))
    ensures LeafOwner(Next(w, At(t, e)), x)
  {
    var r, y := Next(w, At(t, e)), Here(w, t);
    assert LeafOwner(w, x) && PcOk(w, w.ts[t]) && PlaceOk(w, t, y);
    if r.nodes[x].locked {
      var u := r.nodes[x].tid - 1;
      if x == y && u != t && 0 <= u < |w.ts| {
        OthersAtNode(w.nodes[x], e, u);
      }
    }
  }

  lemma LeafPlaces(w: World, t: nat, e: M.Step, u: nat, x: Node)
    requires LeavesOk(w) && Enabled(w, At(t, e)) && u < |w.ts| && x in w.nodes && x.level == 0
    requires IsTree(Next(w, At(t, e)))
    ensures PlaceOk(Next(w, At(t, e)), u, x)
  {
    var r, y := Next(w, At(t, e)), Here(w, t);
    assert PlaceOk(w, u, x) && PcOk(w, w.ts[t]);
    if x == y && u != t {
      OthersAtNode(w.nodes[x], e, u);
    }
  }

  /** A step above level 0 does not fail to unlock, so its thread keeps level 0 behind it. */
  lemma UpperStep(w: World, t: nat, e: M.Step, x: Node)
    requires LeavesOk(w) && Enabled(w, At(t, e)) && Level(w.ts[t]) >= 1 && x in w.nodes && x.level == 0
    requires IsTree(Next(w, At(t, e)))
    ensures LeafOwner(Next(w, At(t, e)), x)
  {
    assert LeafOwner(w, x) && PcOk(w, w.ts[t]);
    AtHighMutex(w, t, e, 1);
  }

  lemma LeavesStep(w: World, v: Event)
    requires LeavesOk(w) && Enabled(w, v) && !YieldsFrom(w, v, 1)
    ensures LeavesOk(Next(w, v))
  {
    StepKeeps(w, v, 1);
    var r := Next(w, v);
    forall x | x in r.nodes && x.level == 0
      ensures LeafOwner(r, x)
    {
      assert LeafOwner(w, x);
      if v.At? {
        if Level(w.ts[v.t]) == 0 {
          LeafStep(w, v.t, v.e, x);
        } else {
          UpperStep(w, v.t, v.e, x);
        }
      }
    }
    forall u, x | 0 <= u < |w.ts| && x in r.nodes && x.level == 0
      ensures PlaceOk(r, u, x)
    {
      assert PlaceOk(w, u, x);
      if v.At? {
        LeafPlaces(w, v.t, v.e, u, x);
      }
    }
  }

  lemma {:induction false} LeavesRun(w: World, vs: seq<Event>, r: World)
    requires LeavesOk(w) && Runs(w, vs, r, 1)
    ensures LeavesOk(r)
    decreases |vs|
  {
    if vs != [] {
      LeavesStep(w, vs[0]);
      LeavesRun(Next(w, vs[0]), vs[1..], r);
    }
  }

  lemma ReachableLeaves(r: World)
    requires Reachable(r, 1)
    ensures LeavesOk(r)
  {
    var w: World, vs: seq<Event> :| Init(w) && Runs(w, vs, r, 1);
    InitInv(w, 1);
    LeavesRun(w, vs, r);
  }

  /** Waiting goes up the tree: who is waited for holds strictly more levels. */
  lemma WaitGoesUp(w: World, t: nat, u: nat)
    requires LeavesOk(w) && t < |w.ts| && u < |w.ts| && WaitsFor(w, t, u)
    ensures Held(w, t) < Held(w, u)
  {
    var x := Here(w, t);
    if x.level >= 1 {
      assert OwnerOk(w, x);
    } else {
      assert LeafOwner(w, x) && PcOk(w, w.ts[u]);
    }
  }

  ghost predicate WaitChain(w: World, c: seq<nat>)
    requires IsTree(w)
  {
    && (forall i | 0 <= i < |c| :: c[i] < |w.ts|)
    && (forall i | 0 <= i < |c| - 1 :: WaitsFor(w, c[i], c[i + 1]))
  }

  lemma {:induction false} ChainGoesUp(w: World, c: seq<nat>)
    requires LeavesOk(w) && WaitChain(w, c) && |c| >= 2
    ensures Held(w, c[0]) < Held(w, c[|c| - 1])
  {
    var n := |c| - 1;
    WaitGoesUp(w, c[n - 1], c[n]);
    if n > 1 {
      ChainGoesUp(w, c[..n]);
    }
  }

  /** In runs whose yields, if any, are at level 0, no chain of waiting threads closes. */
  lemma NoWaitCycle(w: World, c: seq<nat>)
    requires Reachable(w, 1) && IsTree(w) && WaitChain(w, c) && |c| >= 2
    ensures c[0] != c[|c| - 1]
  {
    ReachableLeaves(w);
    ChainGoesUp(w, c);
  }

  // ------------------------------------------------------------------ runs with yields at one level

  /** A run from w to r in which locks yield at level l only. */
  ghost predicate RunsAt(w: World, vs: seq<Event>, r: World, l: nat)
    decreases |vs|
  {
    if vs == [] then r == w
    else
      && IsTree(w) && Enabled(w, vs[0]) && (Yields(w, vs[0]) ==> Level(w.ts[vs[0].t]) == l)
      && RunsAt(Next(w, vs[0]), vs[1..], r, l)
  }

  ghost predicate Leads(w: World, r: World, l: nat) {
    IsTree(r) && exists vs :: RunsAt(w, vs, r, l)
  }

  lemma LeadsHere(w: World, l: nat)
    requires IsTree(w)
    ensures Leads(w, w, l)
  {
    assert RunsAt(w, [], w, l);
  }

  lemma {:induction false} RunsOn(w: World, vs: seq<Event>, r: World, l: nat, v: Event)
    requires RunsAt(w, vs, r, l) && IsTree(r) && Enabled(r, v) && (Yields(r, v) ==> Level(r.ts[v.t]) == l)
    ensures RunsAt(w, vs + [v], Next(r, v), l)
    decreases |vs|
  {
    if vs == [] {
      assert (vs + [v])[1..] == [];
      assert RunsAt(Next(r, v), [], Next(r, v), l);
    } else {
      RunsOn(Next(w, vs[0]), vs[1..], r, l, v);
      assert (vs + [v])[1..] == vs[1..] + [v];
    }
  }

  lemma LeadsOn(w: World, r: World, l: nat, v: Event)
    requires Leads(w, r, l) && Enabled(r, v) && (Yields(r, v) ==> Level(r.ts[v.t]) == l)
    ensures Leads(w, Next(r, v), l)
  {
    var vs :| RunsAt(w, vs, r, l);
    RunsOn(w, vs, r, l, v);
    NextIsTree(r, v);
  }

  /** The mutex of t's path at level k. */
  ghost function Spot(w: World, t: nat, k: nat): (m: M.Mutex)
    requires IsTree(w) && t < |w.ts| && k < w.depth
    ensures |m.ts| == |w.ts|
  {
    w.nodes[PathNode(w.ids[t], k)]
  }

  /** A mutex that t's lock takes at once. */
  ghost predicate Loose(m: M.Mutex, t: nat) {
    t < |m.ts| && !m.locked && (m.tid != M.Id(t) || m.waiting == 0) && m.ts[t].Idle?
  }

  ghost predicate Mine(m: M.Mutex, t: nat) {
    t < |m.ts| && m.locked && m.tid == M.Id(t) && m.ts[t].Idle?
  }

  /** Only t's nodes on the levels from a up to b have changed, each as `f` says. */
  ghost predicate Changed(w: World, r: World, t: nat, a: nat, b: nat, f: M.Mutex -> M.Mutex)
    requires IsTree(w) && IsTree(r) && t < |w.ts|
  {
    && r.depth == w.depth && r.ids == w.ids && r.nodes.Keys == w.nodes.Keys
    && forall x | x in w.nodes ::
         r.nodes[x] == if a <= x.level < b && x == PathNode(w.ids[t], x.level) then f(w.nodes[x]) else w.nodes[x]
  }

  /** Only t has moved, to p. */
  ghost predicate Moved(w: World, r: World, t: nat, p: Pc) {
    && |r.ts| == |w.ts| && t < |w.ts| && r.ts[t] == p
    && forall i | 0 <= i < |w.ts| && i != t :: r.ts[i] == w.ts[i]
  }

  ghost function Took(t: nat): (f: M.Mutex -> M.Mutex) {
    (m: M.Mutex) => m.(locked := true, tid := M.Id(t))
  }

  ghost function Gave(): (f: M.Mutex -> M.Mutex) {
    (m: M.Mutex) => m.(locked := false, ts := M.WakeAll(m.ts))
  }

  /** Where a thread is that has passed b levels. */
  function Upto(depth: nat, b: nat): Pc {
    if b == depth then Inside else Climb(b)
  }

  /** Where it is when b levels are still to release. */
  function Downto(b: nat): Pc {
    if b == 0 then Outside else Down(b)
  }

  lemma TakeStep(o: World, w: World, t: nat, h: nat, l: nat) returns (r: World)
    requires Leads(o, w, l) && t < |w.ts| && w.ts[t] == Climb(h) && h < w.depth && Loose(Spot(w, t, h), t)
    ensures Leads(o, r, l) && Moved(w, r, t, Upto(w.depth, h + 1)) && Changed(w, r, t, h, h + 1, Took(t))
  {
    var x, m, v := PathNode(w.ids[t], h), Spot(w, t, h), At(t, M.Lock(t));
    assert Here(w, t) == x;
    assert M.Next(m, M.Lock(t)) == m.(locked := true, tid := M.Id(t)) by {
      assert m.ts[t := M.Idle] == m.ts;
    }
    LeadsOn(o, w, l, v);
    r := Next(w, v);
  }

  /** A mutex in place of another. */
  ghost function Put(m: M.Mutex): (f: M.Mutex -> M.Mutex) {
    (_: M.Mutex) => m
  }

  /** One step of a release at level h. */
  lemma DownStep(o: World, w: World, t: nat, h: nat, e: M.Step, l: nat) returns (r: World)
    requires Leads(o, w, l) && t < |w.ts| && w.ts[t] == Down(h + 1) && h < w.depth && e.t == t
    requires (e.UnlockCheck? || e.UnlockDo? || e.Wakeup?) && M.Enabled(Spot(w, t, h), e)
    ensures var m := M.Next(Spot(w, t, h), e);
            && Leads(o, r, l) && Moved(w, r, t, Advance(w.depth, w.ts[t], e, m.ts[t]))
            && Changed(w, r, t, h, h + 1, Put(m)) && Spot(r, t, h) == m
  {
    assert Here(w, t) == PathNode(w.ids[t], h);
    LeadsOn(o, w, l, At(t, e));
    r := Next(w, At(t, e));
  }

  lemma PutTwice(w: World, q: World, r: World, t: nat, h: nat, a: M.Mutex, b: M.Mutex)
    requires IsTree(w) && IsTree(q) && IsTree(r) && t < |w.ts| && t < |q.ts|
    requires Changed(w, q, t, h, h + 1, Put(a)) && Changed(q, r, t, h, h + 1, Put(b))
    ensures Changed(w, r, t, h, h + 1, Put(b))
  {
  }

  lemma PutIs(w: World, r: World, t: nat, h: nat, m: M.Mutex, f: M.Mutex -> M.Mutex)
    requires IsTree(w) && IsTree(r) && t < |w.ts| && h < w.depth
    requires Changed(w, r, t, h, h + 1, Put(m)) && m == f(Spot(w, t, h))
    ensures Changed(w, r, t, h, h + 1, f)
  {
  }

  /** The three steps of an unlock by the owner. */
  lemma Unlocks(m: M.Mutex, t: nat) returns (m1: M.Mutex, m2: M.Mutex)
    requires Mine(m, t)
    ensures M.Enabled(m, M.UnlockCheck(t)) && m1 == M.Next(m, M.UnlockCheck(t)) && m1.ts[t].Unlocking?
    ensures M.Enabled(m1, M.UnlockDo(t)) && m2 == M.Next(m1, M.UnlockDo(t)) && m2.ts[t].Waking?
    ensures M.Enabled(m2, M.Wakeup(t)) && M.Next(m2, M.Wakeup(t)) == m.(locked := false, ts := M.WakeAll(m.ts))
  {
    m1 := M.Next(m, M.UnlockCheck(t));
    m2 := M.Next(m1, M.UnlockDo(t));
    assert m.ts[t := M.Unlocking][t := M.Waking][t := M.Idle] == m.ts;
  }

  /** The first two steps of an unlock leave the thread at the node, and the node without an owner. */
  lemma UnlockSteps(o: World, w: World, t: nat, h: nat, l: nat, m1: M.Mutex, m2: M.Mutex) returns (r: World)
    requires Leads(o, w, l) && t < |w.ts| && w.ts[t] == Down(h + 1) && h < w.depth
    requires M.Enabled(Spot(w, t, h), M.UnlockCheck(t)) && m1 == M.Next(Spot(w, t, h), M.UnlockCheck(t))
    requires m1.ts[t].Unlocking? && m2 == M.Next(m1, M.UnlockDo(t)) && m2.ts[t].Waking?
    ensures Leads(o, r, l) && Moved(w, r, t, Down(h + 1)) && Changed(w, r, t, h, h + 1, Put(m2)) && Spot(r, t, h) == m2
  {
    var p := DownStep(o, w, t, h, M.UnlockCheck(t), l);
    r := DownStep(o, p, t, h, M.UnlockDo(t), l);
    PutTwice(w, p, r, t, h, m1, m2);
  }

  /** The third wakes the waiters and goes on to the next level. */
  lemma WakeStep(o: World, w: World, t: nat, h: nat, l: nat, m: M.Mutex) returns (r: World)
    requires Leads(o, w, l) && t < |w.ts| && w.ts[t] == Down(h + 1) && h < w.depth
    requires M.Enabled(Spot(w, t, h), M.Wakeup(t)) && m == M.Next(Spot(w, t, h), M.Wakeup(t))
    ensures Leads(o, r, l) && Moved(w, r, t, Downto(h)) && Changed(w, r, t, h, h + 1, Put(m))
  {
    r := DownStep(o, w, t, h, M.Wakeup(t), l);
  }

  lemma StepsJoin(w: World, q: World, r: World, t: nat, h: nat, m2: M.Mutex)
    requires IsTree(w) && IsTree(q) && IsTree(r) && t < |w.ts| && t < |q.ts| && h < w.depth
    requires Moved(w, q, t, Down(h + 1)) && Changed(w, q, t, h, h + 1, Put(m2))
    requires Moved(q, r, t, Downto(h)) && Changed(q, r, t, h, h + 1, Put(Gave()(Spot(w, t, h))))
    ensures Moved(w, r, t, Downto(h)) && Changed(w, r, t, h, h + 1, Gave())
  {
    PutTwice(w, q, r, t, h, m2, Gave()(Spot(w, t, h)));
    PutIs(w, r, t, h, Gave()(Spot(w, t, h)), Gave());
  }

  lemma GiveStep(o: World, w: World, t: nat, h: nat, l: nat) returns (r: World)
    requires Leads(o, w, l) && t < |w.ts| && w.ts[t] == Down(h + 1) && h < w.depth && Mine(Spot(w, t, h), t)
    ensures Leads(o, r, l) && Moved(w, r, t, Downto(h)) && Changed(w, r, t, h, h + 1, Gave())
  {
    var m := Spot(w, t, h);
    var m1, m2 := Unlocks(m, t);
    var q := UnlockSteps(o, w, t, h, l, m1, m2);
    r := WakeStep(o, q, t, h, l, Gave()(m));
    StepsJoin(w, q, r, t, h, m2);
  }

  /** Two changes on neighbouring stretches of levels are one. */
  lemma JoinUp(w: World, q: World, r: World, t: nat, a: nat, m: nat, b: nat, f: M.Mutex -> M.Mutex)
    requires IsTree(w) && IsTree(q) && IsTree(r) && t < |w.ts| && t < |q.ts| && a <= m <= b
    requires Changed(w, q, t, a, m, f) && Changed(q, r, t, m, b, f)
    ensures Changed(w, r, t, a, b, f)
  {
  }

  lemma JoinDown(w: World, q: World, r: World, t: nat, a: nat, m: nat, b: nat, f: M.Mutex -> M.Mutex)
    requires IsTree(w) && IsTree(q) && IsTree(r) && t < |w.ts| && t < |q.ts| && a <= m <= b
    requires Changed(w, q, t, m, b, f) && Changed(q, r, t, a, m, f)
    ensures Changed(w, r, t, a, b, f)
  {
  }

  /** What changed elsewhere leaves t's node at level k alone. */
  lemma SpotKept(w: World, r: World, t: nat, a: nat, b: nat, f: M.Mutex -> M.Mutex, u: nat, k: nat)
    requires IsTree(w) && IsTree(r) && t < |w.ts| && Changed(w, r, t, a, b, f) && u < |w.ts| && k < w.depth
    requires !(a <= k < b) || PathNode(w.ids[u], k) != PathNode(w.ids[t], k)
    ensures u < |r.ts| && Spot(r, u, k) == Spot(w, u, k)
  {
    assert PathNode(w.ids[u], k) in w.nodes;
  }

  lemma SpotChanged(w: World, r: World, t: nat, a: nat, b: nat, f: M.Mutex -> M.Mutex, k: nat)
    requires IsTree(w) && IsTree(r) && t < |w.ts| && Changed(w, r, t, a, b, f) && a <= k < b <= w.depth
    ensures t < |r.ts| && Spot(r, t, k) == f(Spot(w, t, k))
  {
    assert PathNode(w.ids[t], k) in w.nodes;
  }

  /** Alone on the levels from a up to b, a thread climbs them. */
  lemma {:induction false} Climbs(o: World, w: World, t: nat, a: nat, b: nat, l: nat) returns (r: World)
    requires Leads(o, w, l) && t < |w.ts| && a <= b <= w.depth && w.ts[t] == Upto(w.depth, a)
    requires forall k: nat | a <= k < b :: Loose(Spot(w, t, k), t)
    ensures Leads(o, r, l) && Moved(w, r, t, Upto(w.depth, b)) && Changed(w, r, t, a, b, Took(t))
    decreases b - a
  {
    if a == b {
      r := w;
    } else {
      var q := TakeStep(o, w, t, a, l);
      forall k: nat | a + 1 <= k < b
        ensures Loose(Spot(q, t, k), t)
      {
        SpotKept(w, q, t, a, a + 1, Took(t), t, k);
      }
      r := Climbs(o, q, t, a + 1, b, l);
      JoinUp(w, q, r, t, a, a + 1, b, Took(t));
    }
  }

  /** A thread that owns the levels from a up to b releases them. */
  lemma {:induction false} Gives(o: World, w: World, t: nat, a: nat, b: nat, l: nat) returns (r: World)
    requires Leads(o, w, l) && t < |w.ts| && a <= b <= w.depth && w.ts[t] == Downto(b)
    requires forall k: nat | a <= k < b :: Mine(Spot(w, t, k), t)
    ensures Leads(o, r, l) && Moved(w, r, t, Downto(a)) && Changed(w, r, t, a, b, Gave())
    decreases b
  {
    if a == b {
      r := w;
    } else {
      var q := GiveStep(o, w, t, b - 1, l);
      forall k: nat | a <= k < b - 1
        ensures Mine(Spot(q, t, k), t)
      {
        SpotKept(w, q, t, b - 1, b, Gave(), t, k);
      }
      r := Gives(o, q, t, a, b - 1, l);
      JoinDown(w, q, r, t, a, b - 1, b, Gave());
    }
  }

  /**
   A thread that comes down to a node from level 1 on that it does not have gives up there; the next time it waits at the
   lowest level for itself.
   */
  lemma LostNodeDeadlocks(o: World, w: World, t: nat, h: nat, l: nat) returns (r: World)
    requires Leads(o, w, l) && t < |w.ts| && 1 <= h < w.depth && w.ts[t] == Down(h + 1)
    requires !Owns(w, t, PathNode(w.ids[t], h)) && Spot(w, t, h).ts[t].Idle? && Mine(Spot(w, t, 0), t)
    ensures Leads(o, r, l) && |r.ts| == |w.ts| && WaitsFor(r, t, t)
  {
    var x, m := PathNode(w.ids[t], h), Spot(w, t, h);
    assert Here(w, t) == x;
    LeadsOn(o, w, l, At(t, M.UnlockCheck(t)));
    var q := Next(w, At(t, M.UnlockCheck(t)));
    if m.tid == M.Id(t) {
      LeadsOn(o, q, l, At(t, M.UnlockDo(t)));
      q := Next(q, At(t, M.UnlockDo(t)));
    }
    assert q.ts[t] == Outside && Spot(q, t, 0) == Spot(w, t, 0);
    r := LocksItself(o, q, t, l);
  }

  lemma LocksItself(o: World, w: World, t: nat, l: nat) returns (r: World)
    requires Leads(o, w, l) && t < |w.ts| && w.ts[t] == Outside && Mine(Spot(w, t, 0), t)
    ensures Leads(o, r, l) && |r.ts| == |w.ts| && WaitsFor(r, t, t)
  {
    LeadsOn(o, w, l, Enter(t));
    var q := Next(w, Enter(t));
    assert Here(q, t) == PathNode(w.ids[t], 0);
    LeadsOn(o, q, l, At(t, M.Lock(t)));
    r := Next(q, At(t, M.Lock(t)));
  }

  // ------------------------------------------------------------------ yields at level 1 and above

  /** The paths of t and u meet at level l. */
  ghost predicate Meet(w: World, t: nat, u: nat, l: nat)
    requires IsTree(w)
  {
    && t < |w.ts| && u < |w.ts| && l < w.depth && PathNode(w.ids[t], l) == PathNode(w.ids[u], l)
    && forall k: nat | k < l :: PathNode(w.ids[t], k) != PathNode(w.ids[u], k)
  }

  /** t has the tree, and u waits at the node where their paths meet. */
  ghost predicate Blocked(w: World, t: nat, u: nat, l: nat)
    requires IsTree(w) && Meet(w, t, u, l)
  {
    && w.ts[t] == Inside && (forall k: nat | k < w.depth :: Mine(Spot(w, t, k), t))
    && (forall k: nat | k < w.depth :: Spot(w, t, k).waiting == if k == l then 1 else 0)
  }

  lemma FirstAcquires(w: World, t: nat, u: nat, l: nat) returns (r: World)
    requires Init(w) && Meet(w, t, u, l) && t != u
    ensures Leads(w, r, l) && Changed(w, r, t, 0, w.depth, Took(t)) && Moved(w, r, t, Inside)
  {
    LeadsHere(w, l);
    LeadsOn(w, w, l, Enter(t));
    var q := Next(w, Enter(t));
    assert forall k: nat | k < w.depth :: Spot(q, t, k) == Spot(w, t, k) == M.Init(|w.ts|);
    r := Climbs(w, q, t, 0, w.depth, l);
  }

  /** What t took stays as it is while u climbs to the node where the paths meet. */
  lemma StillHas(o: World, w: World, r: World, t: nat, u: nat, l: nat)
    requires Init(o) && Meet(o, t, u, l) && IsTree(w) && IsTree(r) && |w.ts| == |o.ts| == |r.ts|
    requires Changed(o, w, t, 0, o.depth, Took(t)) && Changed(w, r, u, 0, l, Took(u))
    ensures forall k: nat | k < o.depth :: Spot(r, t, k) == M.Init(|o.ts|).(locked := true, tid := M.Id(t))
  {
    forall k: nat | k < o.depth
      ensures Spot(r, t, k) == M.Init(|o.ts|).(locked := true, tid := M.Id(t))
    {
      SpotChanged(o, w, t, 0, o.depth, Took(t), k);
      SpotKept(w, r, u, 0, l, Took(u), t, k);
    }
  }

  lemma SecondEnters(o: World, w: World, t: nat, u: nat, l: nat) returns (r: World)
    requires Init(o) && Meet(o, t, u, l) && t != u
    requires Leads(o, w, l) && Changed(o, w, t, 0, o.depth, Took(t)) && Moved(o, w, t, Inside)
    ensures Leads(o, r, l) && r == w.(ts := w.ts[u := Climb(0)]) && forall k: nat | k < l :: Loose(Spot(r, u, k), u)
  {
    LeadsOn(o, w, l, Enter(u));
    r := Next(w, Enter(u));
    forall k: nat | k < l
      ensures Loose(Spot(r, u, k), u)
    {
      SpotKept(o, w, t, 0, o.depth, Took(t), u, k);
    }
  }

  /** u climbs to the node where the paths meet, which t has. */
  lemma SecondClimbs(o: World, w: World, t: nat, u: nat, l: nat) returns (r: World)
    requires Init(o) && Meet(o, t, u, l) && t != u
    requires Leads(o, w, l) && Changed(o, w, t, 0, o.depth, Took(t)) && Moved(o, w, t, Inside)
    ensures Leads(o, r, l) && r.ids == o.ids && r.depth == o.depth && Moved(w, r, u, Climb(l))
    ensures forall k: nat | k < o.depth :: Spot(r, t, k) == M.Init(|o.ts|).(locked := true, tid := M.Id(t))
  {
    var q := SecondEnters(o, w, t, u, l);
    r := Climbs(o, q, u, 0, l, l);
    assert Changed(w, r, u, 0, l, Took(u));
    StillHas(o, w, r, t, u, l);
  }

  lemma SecondWaits(o: World, w: World, t: nat, u: nat, l: nat) returns (r: World)
    requires IsTree(o) && Meet(o, t, u, l) && t != u
    requires Leads(o, w, l) && w.ids == o.ids && w.depth == o.depth && |w.ts| == |o.ts| && w.ts[t] == Inside && w.ts[u] == Climb(l)
    requires forall k: nat | k < o.depth :: Spot(w, t, k) == M.Init(|o.ts|).(locked := true, tid := M.Id(t))
    ensures Leads(o, r, l) && r.ids == o.ids && r.depth == o.depth && |r.ts| == |o.ts| && Meet(r, t, u, l)
    ensures Blocked(r, t, u, l)
  {
    var x := PathNode(o.ids[t], l);
    assert Here(w, u) == x && Spot(w, t, l) == w.nodes[x];
    LeadsOn(o, w, l, At(u, M.Lock(u)));
    r := Next(w, At(u, M.Lock(u)));
    forall k: nat | k < o.depth && k != l
      ensures Spot(r, t, k) == Spot(w, t, k)
    {
      assert PathNode(o.ids[t], k) != x;
    }
  }

  /** t has no node, each is free with t as its last owner, and a thread waits at the one of level l. */
  ghost predicate Handed(w: World, t: nat, l: nat, b: nat)
    requires IsTree(w) && t < |w.ts| && b <= w.depth
  {
    forall k: nat | k < b ::
      var m := Spot(w, t, k);
      !m.locked && m.tid == M.Id(t) && m.ts[t].Idle? && m.waiting == if k == l then 1 else 0
  }

  lemma FirstReleases(o: World, w: World, t: nat, u: nat, l: nat) returns (r: World)
    requires Leads(o, w, l) && Meet(w, t, u, l) && Blocked(w, t, u, l)
    ensures Leads(o, r, l) && r.ids == w.ids && r.depth == w.depth && |r.ts| == |w.ts| && r.ts[t] == Outside
    ensures Handed(r, t, l, r.depth)
  {
    LeadsOn(o, w, l, Leave(t));
    var q := Next(w, Leave(t));
    assert forall k: nat | k < w.depth :: Spot(q, t, k) == Spot(w, t, k);
    r := Gives(o, q, t, 0, w.depth, l);
    forall k: nat | k < w.depth
      ensures Spot(r, t, k) == Gave()(Spot(w, t, k))
    {
      SpotChanged(q, r, t, 0, w.depth, Gave(), k);
    }
  }

  /** t comes back before the waiter has run: it climbs to level l, and lock yields there. */
  lemma FirstYields(o: World, w: World, t: nat, l: nat) returns (r: World)
    requires Leads(o, w, l) && t < |w.ts| && 1 <= l < w.depth && w.ts[t] == Outside && Handed(w, t, l, w.depth)
    ensures Leads(o, r, l) && r.ids == w.ids && r.depth == w.depth && |r.ts| == |w.ts| && r.ts[t] == Upto(r.depth, l + 1)
    ensures Mine(Spot(r, t, 0), t) && forall k: nat | l <= k < w.depth :: Spot(r, t, k) == Spot(w, t, k)
  {
    LeadsOn(o, w, l, Enter(t));
    var q := Next(w, Enter(t));
    assert forall k: nat | k < w.depth :: Spot(q, t, k) == Spot(w, t, k);
    var p := Climbs(o, q, t, 0, l, l);
    SpotChanged(q, p, t, 0, l, Took(t), 0);
    forall k: nat | l <= k < w.depth
      ensures Spot(p, t, k) == Spot(w, t, k)
    {
      SpotKept(q, p, t, 0, l, Took(t), t, k);
    }
    r := YieldStep(o, p, t, l);
  }

  lemma YieldStep(o: World, w: World, t: nat, l: nat) returns (r: World)
    requires Leads(o, w, l) && t < |w.ts| && l < w.depth && w.ts[t] == Climb(l)
    requires var m := Spot(w, t, l); !m.locked && m.tid == M.Id(t) && m.ts[t].Idle? && m.waiting == 1
    ensures Leads(o, r, l) && r.ids == w.ids && r.depth == w.depth && r.ts == w.ts[t := Upto(w.depth, l + 1)] && r.nodes == w.nodes
  {
    var m := Spot(w, t, l);
    assert Here(w, t) == PathNode(w.ids[t], l);
    assert M.Next(m, M.Lock(t)) == m by {
      assert m.ts[t := M.Idle] == m.ts;
    }
    LeadsOn(o, w, l, At(t, M.Lock(t)));
    r := Next(w, At(t, M.Lock(t)));
  }

  /** It climbs on to the root, enters and leaves. */
  lemma FirstGoesUp(o: World, w: World, t: nat, l: nat) returns (r: World)
    requires Leads(o, w, l) && t < |w.ts| && l < w.depth && w.ts[t] == Upto(w.depth, l + 1)
    requires forall k: nat | l < k < w.depth :: Loose(Spot(w, t, k), t)
    ensures Leads(o, r, l) && |r.ts| == |w.ts| && r.ids == w.ids && r.depth == w.depth && r.ts[t] == Down(w.depth)
    ensures forall k: nat | l < k < w.depth :: Mine(Spot(r, t, k), t)
    ensures forall k: nat | k <= l :: Spot(r, t, k) == Spot(w, t, k)
  {
    var q := Climbs(o, w, t, l + 1, w.depth, l);
    LeadsOn(o, q, l, Leave(t));
    r := Next(q, Leave(t));
    forall k: nat | l < k < w.depth
      ensures Mine(Spot(r, t, k), t)
    {
      SpotChanged(w, q, t, l + 1, w.depth, Took(t), k);
    }
    forall k: nat | k <= l
      ensures Spot(r, t, k) == Spot(w, t, k)
    {
      SpotKept(w, q, t, l + 1, w.depth, Took(t), t, k);
    }
  }

  /** It comes back down to level l, and finds that it does not have the node there. */
  lemma FirstComesBack(o: World, w: World, t: nat, l: nat) returns (r: World)
    requires Leads(o, w, l) && t < |w.ts| && 1 <= l < w.depth && w.ts[t] == Upto(w.depth, l + 1)
    requires Mine(Spot(w, t, 0), t) && Spot(w, t, l).ts[t].Idle? && !Owns(w, t, PathNode(w.ids[t], l))
    requires forall k: nat | l < k < w.depth :: Loose(Spot(w, t, k), t)
    ensures Leads(o, r, l) && |r.ts| == |w.ts| && r.ids == w.ids && r.depth == w.depth && r.ts[t] == Down(l + 1)
    ensures Spot(r, t, 0) == Spot(w, t, 0) && Spot(r, t, l) == Spot(w, t, l)
  {
    var p := FirstGoesUp(o, w, t, l);
    r := Gives(o, p, t, l + 1, w.depth, l);
    SpotKept(p, r, t, l + 1, w.depth, Gave(), t, 0);
    SpotKept(p, r, t, l + 1, w.depth, Gave(), t, l);
  }

  /**
   For any tree, and any two threads whose paths meet at level 1 or above, there is a run from the start, with a yield at
   that level only, to a thread that waits for itself.
   */
  lemma YieldDeadlocks(w: World, t: nat, u: nat, l: nat) returns (r: World)
    requires Init(w) && Meet(w, t, u, l) && t != u && l >= 1
    ensures Leads(w, r, l) && |r.ts| == |w.ts| && WaitsFor(r, t, t)
  {
    r := FirstAcquires(w, t, u, l);
    r := SecondClimbs(w, r, t, u, l);
    r := SecondWaits(w, r, t, u, l);
    r := FirstReleases(w, r, t, u, l);
    r := FirstYields(w, r, t, l);
    r := FirstComesBack(w, r, t, l);
    r := LostNodeDeadlocks(w, r, t, l, l);
  }

  /**
   A yield at the root of a tree of two levels or more, in any state reached without yields, can leave the thread
   waiting for itself: it is inside without the root, its release fails there, and its lowest node stays locked.
   */
  lemma RootYieldDeadlocks(w: World, t: nat) returns (r: World)
    requires IsTree(w) && w.depth >= 2 && Reachable(w, 0)
    requires Enabled(w, At(t, M.Lock(t))) && Yields(w, At(t, M.Lock(t))) && w.ts[t] == Climb(w.depth - 1)
    ensures Leads(w, r, w.depth - 1) && |r.ts| == |w.ts| && WaitsFor(r, t, t)
  {
    var l, v := w.depth - 1, At(t, M.Lock(t));
    ReachableInv(w, 0);
    LeadsHere(w, l);
    LeadsOn(w, w, l, v);
    var q := Next(w, v);
    assert HoldsOk(w, t, 0) && PlaceOk(w, t, PathNode(w.ids[t], 0)) && Here(w, t) == PathNode(w.ids[t], l);
    assert q.ts[t] == Inside && Mine(Spot(q, t, 0), t) && Spot(q, t, l).ts[t].Idle?;
    LeadsOn(w, q, l, Leave(t));
    r := LostNodeDeadlocks(w, Next(q, Leave(t)), t, l, l);
  }

  lemma {:induction false} RunsAtZero(w: World, vs: seq<Event>, r: World)
    requires RunsAt(w, vs, r, 0)
    ensures Runs(w, vs, r, 1)
    decreases |vs|
  {
    if vs != [] {
      RunsAtZero(Next(w, vs[0]), vs[1..], r);
    }
  }

  ghost predicate Cycle(w: World, c: seq<nat>)
    requires IsTree(w)
  {
    WaitChain(w, c) && |c| >= 2 && c[0] == c[|c| - 1]
  }

  /** Yields at level l alone bring threads to wait in a circle if and only if l is not the lowest level. */
  lemma CyclesIff(w: World, t: nat, u: nat, l: nat)
    requires Init(w) && Meet(w, t, u, l) && t != u
    ensures (exists r: World, c: seq<nat> :: Leads(w, r, l) && Cycle(r, c)) <==> l >= 1
  {
    if l >= 1 {
      var r := YieldDeadlocks(w, t, u, l);
      assert Cycle(r, [t, t]);
    } else if r: World, c: seq<nat> :| Leads(w, r, l) && Cycle(r, c) {
      var vs :| RunsAt(w, vs, r, l);
      RunsAtZero(w, vs, r);
      NoWaitCycle(r, c);
    }
  }
}
