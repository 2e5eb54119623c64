/** sleep and wakeup of proc.c as a step system over any number of threads, channels and condition changes. */
module SleepWakeup {

  // Channel c has a condition `cond[c]` and a lock `lk[c]` that protects it; `ptable.lock` is `pt`. A waiter runs
  // `acquire(lk); while(!cond) sleep(chan, lk); change cond; release(lk)`. A waker changes the condition under the lock
  // and then calls `wakeup(chan)`, before or after it releases the lock. On an `inner` channel the lock is ptable.lock
  // itself, as in `wait` and `kthread_join`: sleep then neither takes nor releases a lock of its own, and the waker, which
  // holds ptable.lock already, calls `wakeup1`. Each step below is one acquire, one release, one
  // test or assignment, or one turn of the scan in `wakeup1`, so threads interleave between all of these. Lock variables
  // hold the number of the owner, or FREE.

  const FREE: int := -1

  datatype Pc =
    | Out
    | WantLk(c: nat)                                 // in acquire(lk)
    | HasLk(c: nat)                                  // at the loop test, lk held
    | Proceed(c: nat)                                // condition seen true, lk held
    | Release(c: nat)                                // about to release(lk)
    | SleepEntry(c: nat)                             // condition seen false, in acquire(ptable.lock), lk held
    | BothHeld(c: nat)                               // about to release(lk) inside sleep
    | Marking(c: nat)                                // ptable.lock held, about to set SLEEPING
    | Sleeping(c: nat)
    | Runnable(c: nat)                               // woken, not yet scheduled
    | Tidy(c: nat)                                   // back from sched, ptable.lock held
    | WakerWantLk(c: nat)
    | WakerHasLk(c: nat)
    | Changed(c: nat, holdsLk: bool)                 // condition changed, wakeup still to come
    | Scanning(c: nat, holdsLk: bool, i: nat)        // in wakeup1, ptable.lock held, thread i next

  datatype State = State(cond: seq<bool>, inner: seq<bool>, lk: seq<int>, pt: int, ts: seq<Pc>) {
    /** One condition, one lock per channel. */
    predicate Sized() {
      |lk| == |cond| == |inner|
    }

    /** The owner of the lock of channel c. */
    function Owner(c: nat): int
      requires Sized() && c < |lk|
    {
      if inner[c] then pt else lk[c]
    }

    function SetOwner(c: nat, t: int): (r: State)
      requires Sized() && c < |lk|
      ensures r.Sized() && r.ts == ts && r.cond == cond && r.inner == inner && r.Owner(c) == t
    {
      if inner[c] then this.(pt := t) else this.(lk := lk[c := t])
    }
  }

  datatype Act =
    | EnterWait(c: nat) | EnterWake(c: nat)
    | TakeLk | Test | Consume(v: bool) | DropLk
    | TakePt | DropLkInSleep | FallAsleep | Kill | Resume | DropPt
    | Change(v: bool) | WakerDropLk | Scan | ScanDone

  predicate Enabled(s: State, t: nat, a: Act)
  {
    && t < |s.ts| && s.Sized()
    && var p := s.ts[t];
    match a
    case EnterWait(c) => p.Out? && c < |s.cond|
    case EnterWake(c) => p.Out? && c < |s.cond|
    case TakeLk => (p.WantLk? || p.WakerWantLk?) && p.c < |s.cond| && s.Owner(p.c) == FREE
    case Test => p.HasLk? && p.c < |s.cond|
    case Consume(_) => p.Proceed? && p.c < |s.cond|
    case DropLk => p.Release? && p.c < |s.cond|
    case TakePt => (p.SleepEntry? || p.Changed?) && p.c < |s.cond| && (s.inner[p.c] || s.pt == FREE)
    case DropLkInSleep => p.BothHeld? && p.c < |s.cond|
    case FallAsleep => p.Marking?
    case Kill => p.Sleeping? && s.pt == FREE
    case Resume => p.Runnable? && s.pt == FREE
    case DropPt => p.Tidy? && p.c < |s.cond|
    case Change(_) => p.WakerHasLk? && p.c < |s.cond|
    case WakerDropLk => p.Changed? && p.holdsLk && p.c < |s.cond| && !s.inner[p.c]
    case Scan => p.Scanning? && p.i < |s.ts|
    case ScanDone => p.Scanning? && p.c < |s.cond| && p.i == |s.ts|
  }

  function Next(s: State, t: nat, a: Act): (r: State)
    requires Enabled(s, t, a)
    ensures r.Sized() && |r.ts| == |s.ts| && |r.cond| == |s.cond| && r.inner == s.inner
  {
    var p := s.ts[t];
    match a
    case EnterWait(c) => s.(ts := s.ts[t := WantLk(c)])
    case EnterWake(c) => s.(ts := s.ts[t := WakerWantLk(c)])
    case TakeLk => s.SetOwner(p.c, t).(ts := s.ts[t := if p.WantLk? then HasLk(p.c) else WakerHasLk(p.c)])
    case Test =>
      s.(ts := s.ts[t := if s.cond[p.c] then Proceed(p.c) else if s.inner[p.c] then Marking(p.c) else SleepEntry(p.c)])
    case Consume(v) => s.(cond := s.cond[p.c := v], ts := s.ts[t := Release(p.c)])
    case DropLk => s.SetOwner(p.c, FREE).(ts := s.ts[t := Out])
    case TakePt =>
      s.(pt := if s.inner[p.c] then s.pt else t,
         ts := s.ts[t := if p.SleepEntry? then BothHeld(p.c) else Scanning(p.c, p.holdsLk, 0)])
    case DropLkInSleep => s.(lk := s.lk[p.c := FREE], ts := s.ts[t := Marking(p.c)])
    case FallAsleep => s.(pt := FREE, ts := s.ts[t := Sleeping(p.c)])
    case Kill => s.(ts := s.ts[t := Runnable(p.c)])
    case Resume => s.(pt := t, ts := s.ts[t := Tidy(p.c)])
    case DropPt =>
      if s.inner[p.c] then s.(ts := s.ts[t := HasLk(p.c)]) else s.(pt := FREE, ts := s.ts[t := WantLk(p.c)])
    case Change(v) => s.(cond := s.cond[p.c := v], ts := s.ts[t := Changed(p.c, true)])
    case WakerDropLk => s.(lk := s.lk[p.c := FREE], ts := s.ts[t := Changed(p.c, false)])
    case Scan =>
      var woken := if s.ts[p.i] == Sleeping(p.c) then s.ts[p.i := Runnable(p.c)] else s.ts;
      s.(ts := woken[t := Scanning(p.c, p.holdsLk, p.i + 1)])
    case ScanDone =>
      s.(pt := if s.inner[p.c] then s.pt else FREE, ts := s.ts[t := if p.holdsLk then Release(p.c) else Out])
  }

  // ------------------------------------------------------------------ the invariant

  ghost predicate HoldsLk(p: Pc) {
    p.HasLk? || p.Proceed? || p.Release? || p.SleepEntry? || p.BothHeld? || p.WakerHasLk?
    || ((p.Changed? || p.Scanning?) && p.holdsLk)
  }

  ghost predicate HoldsPt(p: Pc) {
    p.BothHeld? || p.Marking? || p.Tidy? || p.Scanning?
  }

  /** Thread p has changed condition c, and its wakeup has yet to pass thread j. */
  ghost predicate PendingFor(p: Pc, c: nat, j: nat) {
    (p.Changed? && p.c == c) || (p.Scanning? && p.c == c && p.i <= j)
  }

  /** Some thread's wakeup on channel c is still to reach thread j. */
  ghost predicate Owed(ts: seq<Pc>, c: nat, j: nat) {
    exists w :: 0 <= w < |ts| && PendingFor(ts[w], c, j)
  }

  ghost predicate ThreadOk(s: State, t: nat)
    requires t < |s.ts| && s.Sized()
  {
    var p := s.ts[t];
    p.Out? ||
    (&& p.c < |s.cond|
     && (HoldsLk(p) ==> s.Owner(p.c) == t)
     && (HoldsPt(p) ==> s.pt == t)
     && (s.inner[p.c] ==> !p.SleepEntry? && !p.BothHeld? && (p.Changed? || p.Scanning? ==> p.holdsLk))
     && (p.Proceed? ==> s.cond[p.c])
     && (p.SleepEntry? || p.BothHeld? ==> !s.cond[p.c])
     && ((p.Marking? || p.Sleeping?) && s.cond[p.c] ==> Owed(s.ts, p.c, t))
     && (p.Scanning? ==> p.i <= |s.ts|))
  }

  ghost predicate Inv(s: State) {
    s.Sized() && (forall t | 0 <= t < |s.ts| :: ThreadOk(s, t)) && PtHeld(s) && (forall c | 0 <= c < |s.lk| :: LkHeld(s, c))
  }

  /** If ptable.lock is taken, its owner is a thread that is to release it. */
  ghost predicate PtHeld(s: State)
    requires s.Sized()
  {
    s.pt == FREE || (0 <= s.pt < |s.ts| && HoldsPtOr(s, s.ts[s.pt]))
  }

  /** The thread holds ptable.lock as such, or as the lock of an inner channel. */
  ghost predicate HoldsPtOr(s: State, p: Pc)
    requires s.Sized()
  {
    HoldsPt(p) || (HoldsLk(p) && p.c < |s.inner| && s.inner[p.c])
  }

  /** If the lock of a channel is taken, its owner is a thread that is to release it. */
  ghost predicate LkHeld(s: State, c: nat)
    requires s.Sized() && c < |s.lk|
  {
    s.lk[c] == FREE || s.inner[c] || (0 <= s.lk[c] < |s.ts| && HoldsLk(s.ts[s.lk[c]]) && s.ts[s.lk[c]].c == c)
  }

  /** A wakeup owed to a thread that stays where it is stays owed, whatever one thread does. */
  lemma OwedStays(s: State, t: nat, a: Act, c: nat, j: nat)
    requires Inv(s) && Enabled(s, t, a) && j < |s.ts| && j != t
    requires (s.ts[j] == Marking(c) || s.ts[j] == Sleeping(c)) && Next(s, t, a).ts[j] == s.ts[j]
    requires Owed(s.ts, c, j)
    ensures Owed(Next(s, t, a).ts, c, j)
  {
    var r := Next(s, t, a);
    var w :| 0 <= w < |s.ts| && PendingFor(s.ts[w], c, j);
    assert ThreadOk(s, t) && ThreadOk(s, j);
    assert PendingFor(r.ts[w], c, j);
  }

  /** A thread that does not move keeps its part of the invariant. */
  lemma OthersKeep(s: State, t: nat, a: Act, j: nat)
    requires Inv(s) && Enabled(s, t, a) && j < |s.ts| && j != t
    ensures ThreadOk(Next(s, t, a), j)
  {
    var r, p := Next(s, t, a), s.ts[j];
    assert ThreadOk(s, t) && ThreadOk(s, j);
    if (p.Marking? || p.Sleeping?) && r.ts[j] == p && r.cond[p.c] {
      if s.cond[p.c] {
        OwedStays(s, t, a, p.c, j);
      } else {
        assert PendingFor(r.ts[t], p.c, j);
      }
    }
  }

  lemma MoverKeeps(s: State, t: nat, a: Act)
    requires Inv(s) && Enabled(s, t, a)
    ensures ThreadOk(Next(s, t, a), t)
  {
    var r, p := Next(s, t, a), s.ts[t];
    assert ThreadOk(s, t);
    if a.FallAsleep? && s.cond[p.c] {
      var w :| 0 <= w < |s.ts| && PendingFor(s.ts[w], p.c, t);
      assert PendingFor(r.ts[w], p.c, t);
    }
  }

  lemma PtKeeps(s: State, t: nat, a: Act)
    requires Inv(s) && Enabled(s, t, a)
    ensures PtHeld(Next(s, t, a))
  {
    assert ThreadOk(s, t);
    var u := s.pt;
    if u != FREE && u != t {
      assert ThreadOk(s, u);
    }
  }

  lemma LkKeeps(s: State, t: nat, a: Act, c: nat)
    requires Inv(s) && Enabled(s, t, a) && c < |s.lk|
    ensures LkHeld(Next(s, t, a), c)
  {
    assert ThreadOk(s, t) && LkHeld(s, c);
    var u := s.lk[c];
    if u != FREE && u != t && !s.inner[c] {
      assert ThreadOk(s, u);
    }
  }

  /** Every step keeps the invariant. */
  lemma StepKeeps(s: State, t: nat, a: Act)
    requires Inv(s) && Enabled(s, t, a)
    ensures Inv(Next(s, t, a))
  {
    MoverKeeps(s, t, a);
    PtKeeps(s, t, a);
    forall c | 0 <= c < |s.lk|
      ensures LkHeld(Next(s, t, a), c)
    {
      LkKeeps(s, t, a, c);
    }
    forall j | 0 <= j < |s.ts| && j != t
      ensures ThreadOk(Next(s, t, a), j)
    {
      OthersKeep(s, t, a, j);
    }
  }

  // ------------------------------------------------------------------ whole runs

  /** Any number of threads outside, all locks free, the conditions whatever they are. */
  ghost predicate Init(s: State) {
    && s.Sized()
    && (forall c | 0 <= c < |s.lk| :: s.lk[c] == FREE)
    && s.pt == FREE
    && (forall t | 0 <= t < |s.ts| :: s.ts[t] == Out)
  }

  ghost predicate Runs(s: State, es: seq<(nat, Act)>, r: State)
    decreases |es|
  {
    if es == [] then r == s
    else Enabled(s, es[0].0, es[0].1) && Runs(Next(s, es[0].0, es[0].1), es[1..], r)
  }

  ghost predicate Reachable(r: State) {
    exists s: State, es: seq<(nat, Act)> :: Init(s) && Runs(s, es, r)
  }

  lemma {:induction false} RunKeeps(s: State, es: seq<(nat, Act)>, r: State)
    requires Inv(s) && Runs(s, es, r)
    ensures Inv(r)
    decreases |es|
  {
    if es != [] {
      StepKeeps(s, es[0].0, es[0].1);
      RunKeeps(Next(s, es[0].0, es[0].1), es[1..], r);
    }
  }

  /**
   No wakeup is lost: in every reachable state, a thread asleep on a channel whose condition holds is owed a
   wakeup by a thread that changed the condition and whose scan has not yet passed it.
   */
  lemma NoLostWakeup(r: State, j: nat)
    requires Reachable(r) && j < |r.ts| && r.ts[j].Sleeping?
    ensures r.ts[j].c < |r.cond|
    ensures r.cond[r.ts[j].c] ==> Owed(r.ts, r.ts[j].c, j)
  {
    var s: State, es: seq<(nat, Act)> :| Init(s) && Runs(s, es, r);
    RunKeeps(s, es, r);
    assert ThreadOk(r, j);
  }

  /** The locks exclude: two threads never hold the same channel lock, nor both hold ptable.lock in either of its roles. */
  lemma LocksExclude(r: State, t: nat, u: nat)
    requires Reachable(r) && t < |r.ts| && u < |r.ts| && t != u
    ensures !(HoldsPt(r.ts[t]) && HoldsPt(r.ts[u]))
    ensures HoldsLk(r.ts[t]) && HoldsLk(r.ts[u]) ==> r.ts[t].c != r.ts[u].c
    ensures HoldsLk(r.ts[t]) && r.ts[t].c < |r.inner| && r.inner[r.ts[t].c] ==> !HoldsPt(r.ts[u])
  {
    var s: State, es: seq<(nat, Act)> :| Init(s) && Runs(s, es, r);
    RunKeeps(s, es, r);
    assert ThreadOk(r, t) && ThreadOk(r, u);
  }

  /** A thread in the middle of its code: not outside, and not asleep. */
  ghost predicate Busy(p: Pc) {
    !p.Out? && !p.Sleeping?
  }

  /** What a thread does next, other than wait. */
  ghost function Turn(s: State, p: Pc): (a: Act)
    requires s.Sized() && Busy(p)
  {
    match p
    case WantLk(_) => TakeLk
    case HasLk(_) => Test
    case Proceed(_) => Consume(false)
    case Release(_) => DropLk
    case SleepEntry(_) => TakePt
    case BothHeld(_) => DropLkInSleep
    case Marking(_) => FallAsleep
    case Runnable(_) => Resume
    case Tidy(_) => DropPt
    case WakerWantLk(_) => TakeLk
    case WakerHasLk(_) => Change(true)
    case Changed(_, _) => TakePt
    case Scanning(_, _, i) => if i == |s.ts| then ScanDone else Scan
  }

  /**
   No deadlock: in every reachable state in which some thread is in the middle of its code, such a thread can take its
   next step.
   */
  lemma NoDeadlock(r: State, t: nat) returns (u: nat)
    requires Reachable(r) && t < |r.ts| && Busy(r.ts[t])
    ensures u < |r.ts| && Busy(r.ts[u]) && r.Sized() && Enabled(r, u, Turn(r, r.ts[u]))
  {
    var s: State, es: seq<(nat, Act)> :| Init(s) && Runs(s, es, r);
    RunKeeps(s, es, r);
    u := CanMove(r, t);
  }

  lemma CanMove(s: State, t: nat) returns (u: nat)
    requires Inv(s) && t < |s.ts| && Busy(s.ts[t])
    ensures u < |s.ts| && Busy(s.ts[u]) && Enabled(s, u, Turn(s, s.ts[u]))
  {
    assert ThreadOk(s, t);
    var p := s.ts[t];
    if s.pt != FREE {
      u := s.pt;
      assert ThreadOk(s, u);
    } else if (p.WantLk? || p.WakerWantLk?) && s.Owner(p.c) != FREE {
      assert LkHeld(s, p.c);
      u := s.lk[p.c];
      assert ThreadOk(s, u);
    } else {
      u := t;
    }
  }

  /** The scan of `wakeup1` from thread i on. */
  ghost function ScanAll(s: State, t: nat): (r: State)
    requires t < |s.ts| && s.Sized() && s.ts[t].Scanning? && s.ts[t].i <= |s.ts|
    ensures |r.ts| == |s.ts| && r.cond == s.cond && r.inner == s.inner && r.lk == s.lk && r.pt == s.pt
    decreases |s.ts| - s.ts[t].i
  {
    if s.ts[t].i == |s.ts| then s else ScanAll(Next(s, t, Scan), t)
  }

  /** A scan wakes exactly the threads asleep on its channel from its position on, and moves no other. */
  lemma {:induction false} ScanWakesAll(s: State, t: nat)
    requires t < |s.ts| && s.Sized() && s.ts[t].Scanning? && s.ts[t].i <= |s.ts|
    ensures var p, r := s.ts[t], ScanAll(s, t);
            && r.ts[t] == Scanning(p.c, p.holdsLk, |s.ts|)
            && (forall j | 0 <= j < |s.ts| && j != t ::
                  r.ts[j] == if j >= p.i && s.ts[j] == Sleeping(p.c) then Runnable(p.c) else s.ts[j])
    decreases |s.ts| - s.ts[t].i
  {
    if s.ts[t].i < |s.ts| {
      ScanWakesAll(Next(s, t, Scan), t);
    }
  }
}
