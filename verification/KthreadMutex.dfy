/** kthread_mutex_lock and kthread_mutex_unlock of mutex.c as a step system over any number of threads. */
module KthreadMutex {
  import opened Counting

  // The mutex is one allocated mutex. Each step is one critical section under its spinlock, the unlocked read of `tid` at
  // the start of an unlock, or the wakeup at its end.
  //
  // `tid` keeps the last owner after an unlock, and `lock` uses it to make the last owner yield to waiters: a last owner
  // that calls lock on the free mutex while others wait returns 0 without the mutex. The recorded owner is therefore
  // `tid` while `locked` is set.

  /** `counted` remembers whether the thread added itself to waitingThreads. */
  datatype Pc =
    | Idle
    | Sleeping(counted: bool)
    | Woken(counted: bool)
    | Unlocking          // past the check of tid, before the spinlock
    | Waking             // mutex released, wakeup still to come

  datatype Mutex = Mutex(locked: bool, tid: int, waiting: int, ts: seq<Pc>)

  datatype Step =
    | Lock(t: nat) | Retest(t: nat) | UnlockCheck(t: nat) | UnlockDo(t: nat) | Wakeup(t: nat) | Spurious(t: nat)

  /** Thread t's id; no thread has the id 0 that a fresh mutex records. */
  function Id(t: nat): (id: int) {
    t + 1
  }

  predicate Enabled(m: Mutex, e: Step) {
    && e.t < |m.ts|
    && var p := m.ts[e.t];
    match e
    case Lock(_) => p.Idle?
    case Retest(_) => p.Woken?
    case UnlockCheck(_) => p.Idle?
    case UnlockDo(_) => p.Unlocking?
    case Wakeup(_) => p.Waking?
    case Spurious(_) => p.Sleeping?
  }

  /** What a thread does once it finds the mutex free: it may or may not take it, and lock returns 0. */
  function Grab(m: Mutex, t: nat): (r: Mutex)
    requires t < |m.ts|
    ensures |r.ts| == |m.ts|
  {
    var waiting := if m.tid != Id(t) then m.waiting - 1 else m.waiting;
    if m.tid != Id(t) || waiting == 0 then Mutex(true, Id(t), waiting, m.ts[t := Idle])
    else m.(waiting := waiting, ts := m.ts[t := Idle])
  }

  function WakeAll(ts: seq<Pc>): (r: seq<Pc>)
    ensures |r| == |ts|
    ensures forall i | 0 <= i < |ts| :: r[i] == if ts[i].Sleeping? then Woken(ts[i].counted) else ts[i]
  {
    seq(|ts|, i requires 0 <= i < |ts| => if ts[i].Sleeping? then Woken(ts[i].counted) else ts[i])
  }

  function Next(m: Mutex, e: Step): (r: Mutex)
    requires Enabled(m, e)
    ensures |r.ts| == |m.ts|
  {
    var t, p := e.t, m.ts[e.t];
    match e
    case Lock(_) =>
      var counted := m.tid != Id(t);
      var m1 := if counted then m.(waiting := m.waiting + 1) else m;
      if m1.locked then m1.(ts := m1.ts[t := Sleeping(counted)]) else Grab(m1, t)
    case Retest(_) => if m.locked then m.(ts := m.ts[t := Sleeping(p.counted)]) else Grab(m, t)
    case UnlockCheck(_) => if m.tid != Id(t) then m else m.(ts := m.ts[t := Unlocking])
    case UnlockDo(_) =>
      if !m.locked then m.(ts := m.ts[t := Idle]) else m.(locked := false, ts := m.ts[t := Waking])
    case Wakeup(_) => m.(ts := WakeAll(m.ts[t := Idle]))
    case Spurious(_) => m.(ts := m.ts[t := Woken(p.counted)])
  }

  /**
   Which steps a run may take. `NoBreak` excludes only the step that upsets the counter. `NoRelock` is the caller's rule
   not to call lock on a mutex it holds, with unlock called by anyone at any time. `HolderUnlocks` is the rule that
   unlock is called only by a thread that holds the mutex.
   */
  datatype Rule = Any | NoBreak | NoRelock | HolderUnlocks

  /** The mutex is released while its recorded owner waits in a lock of its own. */
  ghost predicate Breaks(m: Mutex, e: Step) {
    e.UnlockDo? && m.locked && exists u: nat :: u < |m.ts| && m.tid == Id(u) && IsWaiting(m.ts[u])
  }

  ghost predicate Allowed(rule: Rule, m: Mutex, e: Step) {
    match rule
    case Any => true
    case NoBreak => !Breaks(m, e)
    case NoRelock => e.Lock? ==> !(m.locked && m.tid == Id(e.t))
    case HolderUnlocks => e.UnlockCheck? && m.tid == Id(e.t) ==> m.locked
  }

  // ------------------------------------------------------------------ the invariant

  ghost predicate IsWaiting(p: Pc) {
    p.Sleeping? || p.Woken?
  }

  ghost function Counted(p: Pc): (n: int) {
    if IsWaiting(p) && p.counted then 1 else 0
  }

  ghost predicate ThreadOk(m: Mutex, t: nat)
    requires t < |m.ts|
  {
    var p := m.ts[t];
    && (IsWaiting(p) ==> p.counted == (m.tid != Id(t)))
    && (IsWaiting(p) && !p.counted ==> m.locked)
    && (p.Sleeping? ==> m.locked || exists w :: 0 <= w < |m.ts| && m.ts[w].Waking?)
  }

  ghost predicate Inv(m: Mutex) {
    m.waiting == Sum(m.ts, Counted) && forall t | 0 <= t < |m.ts| :: ThreadOk(m, t)
  }

  function Init(n: nat): (m: Mutex) {
    Mutex(false, 0, 0, seq(n, _ => Idle))
  }

  lemma CountUpdate(m: Mutex, t: nat, p: Pc)
    requires t < |m.ts|
    ensures Sum(m.ts[t := p], Counted) == Sum(m.ts, Counted) - Counted(m.ts[t]) + Counted(p)
  {
    SumUpdate(m.ts, t, p, Counted);
  }

  /** A thread that can take the free mutex keeps the invariant, whether it takes it or yields. */
  lemma GrabKeeps(m: Mutex, t: nat)
    requires t < |m.ts| && !m.locked
    requires forall u | 0 <= u < |m.ts| && u != t :: ThreadOk(m, u)
    requires m.waiting == Sum(m.ts, Counted) - Counted(m.ts[t]) + (if m.tid != Id(t) then 1 else 0)
    requires !m.ts[t].Waking?
    ensures Inv(Grab(m, t))
  {
    CountUpdate(m, t, Idle);
    var r := Grab(m, t);
    forall u | 0 <= u < |m.ts|
      ensures ThreadOk(r, u)
    {
      assert u != t ==> ThreadOk(m, u);
      if u != t && m.ts[u].Sleeping? && !r.locked {
        var w :| 0 <= w < |m.ts| && m.ts[w].Waking?;
        assert r.ts[w].Waking?;
      }
    }
  }

  lemma LockKeeps(m: Mutex, t: nat)
    requires Inv(m) && Enabled(m, Lock(t))
    ensures Inv(Next(m, Lock(t)))
  {
    var counted := m.tid != Id(t);
    var m1 := if counted then m.(waiting := m.waiting + 1) else m;
    CountUpdate(m, t, Sleeping(counted));
    forall u | 0 <= u < |m.ts|
      ensures ThreadOk(m1, u) && (m.locked ==> ThreadOk(Next(m, Lock(t)), u))
    {
      assert ThreadOk(m, u);
    }
    if !m.locked {
      GrabKeeps(m1, t);
    }
  }

  lemma RetestKeeps(m: Mutex, t: nat)
    requires Inv(m) && Enabled(m, Retest(t))
    ensures Inv(Next(m, Retest(t)))
  {
    assert ThreadOk(m, t);
    CountUpdate(m, t, Sleeping(m.ts[t].counted));
    if !m.locked {
      GrabKeeps(m, t);
    } else {
      forall u | 0 <= u < |m.ts|
        ensures ThreadOk(Next(m, Retest(t)), u)
      {
        assert ThreadOk(m, u);
      }
    }
  }

  lemma UnlockKeeps(m: Mutex, e: Step)
    requires Inv(m) && Enabled(m, e) && !Breaks(m, e) && (e.UnlockCheck? || e.UnlockDo?)
    ensures Inv(Next(m, e))
  {
    var r := Next(m, e);
    CountUpdate(m, e.t, Unlocking);
    CountUpdate(m, e.t, Waking);
    CountUpdate(m, e.t, Idle);
    assert e.UnlockDo? && m.locked ==> r.ts[e.t].Waking?;
    forall u | 0 <= u < |m.ts|
      ensures ThreadOk(r, u)
    {
      assert ThreadOk(m, u);
      if r.ts[u].Sleeping? && !m.locked {
        var w :| 0 <= w < |m.ts| && m.ts[w].Waking?;
        assert r.ts[w].Waking?;
      }
    }
  }

  lemma WakeKeeps(m: Mutex, e: Step)
    requires Inv(m) && Enabled(m, e) && (e.Wakeup? || e.Spurious?)
    ensures Inv(Next(m, e))
  {
    var r := Next(m, e);
    if e.Wakeup? {
      CountUpdate(m, e.t, Idle);
      SumSame(r.ts, m.ts[e.t := Idle], Counted, Counted);
    } else {
      CountUpdate(m, e.t, Woken(m.ts[e.t].counted));
    }
    forall u | 0 <= u < |m.ts|
      ensures ThreadOk(r, u)
    {
      assert ThreadOk(m, u);
      if r.ts[u].Sleeping? && !m.locked {
        var w :| 0 <= w < |m.ts| && m.ts[w].Waking?;
        assert r.ts[w].Waking?;
      }
    }
  }

  /** A step keeps the invariant if and only if it does not release the mutex under a waiting owner. */
  lemma StepKeepsIff(m: Mutex, e: Step)
    requires Inv(m) && Enabled(m, e)
    ensures Inv(Next(m, e)) <==> !Breaks(m, e)
  {
    if Breaks(m, e) {
      var u: nat :| u < |m.ts| && m.tid == Id(u) && IsWaiting(m.ts[u]);
      assert ThreadOk(m, u) && !ThreadOk(Next(m, e), u);
    } else {
      match e {
        case Lock(t) => LockKeeps(m, t);
        case Retest(t) => RetestKeeps(m, t);
        case UnlockCheck(_) => UnlockKeeps(m, e);
        case UnlockDo(_) => UnlockKeeps(m, e);
        case Wakeup(_) => WakeKeeps(m, e);
        case Spurious(_) => WakeKeeps(m, e);
      }
    }
  }

  ghost predicate Runs(rule: Rule, m: Mutex, es: seq<Step>, r: Mutex)
    decreases |es|
  {
    if es == [] then r == m
    else Enabled(m, es[0]) && Allowed(rule, m, es[0]) && Runs(rule, Next(m, es[0]), es[1..], r)
  }

  /** The end of a run, of any number of threads from a fresh mutex, that follows the rule. */
  ghost predicate Reachable(rule: Rule, r: Mutex) {
    exists n: nat, es: seq<Step> :: Runs(rule, Init(n), es, r)
  }

  lemma {:induction false} RunKeeps(m: Mutex, es: seq<Step>, r: Mutex)
    requires Inv(m) && Runs(NoBreak, m, es, r)
    ensures Inv(r)
    decreases |es|
  {
    if es != [] {
      StepKeepsIff(m, es[0]);
      RunKeeps(Next(m, es[0]), es[1..], r);
    }
  }

  lemma InitInv(n: nat)
    ensures Inv(Init(n))
  {
    SumBetween(Init(n).ts, Counted, 0, 0);
  }

  lemma ReachableInv(r: Mutex)
    requires Reachable(NoBreak, r)
    ensures Inv(r)
  {
    var n: nat, es: seq<Step> :| Runs(NoBreak, Init(n), es, r);
    InitInv(n);
    RunKeeps(Init(n), es, r);
  }

  // ------------------------------------------------------------------ the callers' rules

  /** Without relocks the recorded owner does not wait. */
  ghost predicate OwnerAwake(m: Mutex) {
    m.locked ==> forall u: nat | u < |m.ts| && m.tid == Id(u) :: !IsWaiting(m.ts[u])
  }

  /** With unlock called by holders only, a thread on its way to release the mutex holds it. */
  ghost predicate Holding(m: Mutex) {
    forall u: nat | u < |m.ts| && m.ts[u].Unlocking? :: m.locked && m.tid == Id(u)
  }

  lemma RuleStep(rule: Rule, m: Mutex, e: Step)
    requires Inv(m) && Enabled(m, e) && Allowed(rule, m, e)
    ensures rule.NoRelock? && OwnerAwake(m) ==> !Breaks(m, e) && OwnerAwake(Next(m, e))
    ensures rule.HolderUnlocks? && Holding(m) ==> !Breaks(m, e) && Holding(Next(m, e))
  {
    assert ThreadOk(m, e.t);
  }

  /** Either rule is enough: runs that follow it never upset the counter. */
  lemma {:induction false} RuleRuns(rule: Rule, m: Mutex, es: seq<Step>, r: Mutex)
    requires rule.NoRelock? || rule.HolderUnlocks?
    requires Inv(m) && Runs(rule, m, es, r) && (if rule.NoRelock? then OwnerAwake(m) else Holding(m))
    ensures Runs(NoBreak, m, es, r) && (rule.HolderUnlocks? ==> Holding(r))
    decreases |es|
  {
    if es != [] {
      RuleStep(rule, m, es[0]);
      StepKeepsIff(m, es[0]);
      RuleRuns(rule, Next(m, es[0]), es[1..], r);
    }
  }

  /** What holds in every state reachable without a break holds for callers of either rule. */
  lemma RulesAvoidBreaks(rule: Rule, r: Mutex)
    requires (rule.NoRelock? || rule.HolderUnlocks?) && Reachable(rule, r)
    ensures Reachable(NoBreak, r) && (rule.HolderUnlocks? ==> Holding(r))
  {
    var n: nat, es: seq<Step> :| Runs(rule, Init(n), es, r);
    InitInv(n);
    RuleRuns(rule, Init(n), es, r);
  }

  // ------------------------------------------------------------------ what holds in every reachable state

  /** waitingThreads is the number of threads between its increment and its decrement. */
  lemma WaitingIsTheCount(m: Mutex)
    requires Reachable(NoBreak, m)
    ensures m.waiting == Sum(m.ts, Counted)
  {
    ReachableInv(m);
  }

  /** On a free mutex every waiting thread is counted, so the counter is zero exactly when nobody waits. */
  lemma CountZeroIff(m: Mutex)
    requires Inv(m) && !m.locked
    ensures m.waiting == 0 <==> forall u | 0 <= u < |m.ts| :: !IsWaiting(m.ts[u])
  {
    assert forall u | 0 <= u < |m.ts| :: ThreadOk(m, u) && Counted(m.ts[u]) >= 0;
    SumNonNegative(m.ts, Counted);
    if m.waiting > 0 {
      var u := SumWitness(m.ts, Counted);
    }
    if u :| 0 <= u < |m.ts| && IsWaiting(m.ts[u]) {
      SumAtLeast(m.ts, u, Counted);
    }
  }

  /**
   The hand-off rule, exactly: lock on a free mutex returns without taking it if and only if the caller is the
   last owner and some thread waits. In particular the last owner never becomes owner again past a waiter.
   */
  lemma LockYieldsIff(m: Mutex, t: nat)
    requires Reachable(NoBreak, m) && Enabled(m, Lock(t)) && !m.locked
    ensures var r := Next(m, Lock(t));
            && r.ts[t] == Idle
            && (r.locked ==> r.tid == Id(t))
            && (!r.locked <==> m.tid == Id(t) && exists u :: 0 <= u < |m.ts| && IsWaiting(m.ts[u]))
  {
    ReachableInv(m);
    CountZeroIff(m);
  }

  /** A thread that waited and finds the mutex free always takes it. */
  lemma WaiterTakes(m: Mutex, t: nat)
    requires Reachable(NoBreak, m) && Enabled(m, Retest(t)) && !m.locked
    ensures var r := Next(m, Retest(t)); r.locked && r.tid == Id(t) && r.ts[t] == Idle
  {
    ReachableInv(m);
    assert ThreadOk(m, t);
  }

  /** Where unlock is called by holders only, a recorded owner stays recorded until its own unlock. */
  lemma OwnerEndsOwnHold(m: Mutex, e: Step)
    requires Reachable(HolderUnlocks, m) && Enabled(m, e) && m.locked
    ensures Next(m, e).tid == m.tid
    ensures !Next(m, e).locked ==> e.UnlockDo? && Id(e.t) == m.tid
  {
    RulesAvoidBreaks(HolderUnlocks, m);
  }

  /** A sleeper on a free mutex is owed a wakeup. */
  lemma SleeperIsOwedAWakeup(m: Mutex, t: nat)
    requires Reachable(NoBreak, m) && t < |m.ts| && m.ts[t].Sleeping? && !m.locked
    ensures exists w :: 0 <= w < |m.ts| && m.ts[w].Waking?
  {
    ReachableInv(m);
    assert ThreadOk(m, t);
  }

  // ------------------------------------------------------------------ what the rules are for

  lemma {:induction false} RunsOn(rule: Rule, m: Mutex, es: seq<Step>, r: Mutex, e: Step)
    requires Runs(rule, m, es, r) && Enabled(r, e) && Allowed(rule, r, e)
    ensures Runs(rule, m, es + [e], Next(r, e))
    decreases |es|
  {
    if es != [] {
      RunsOn(rule, Next(m, es[0]), es[1..], r, e);
      assert (es + [e])[1..] == es[1..] + [e];
    } else {
      assert ([e])[1..] == [];
    }
  }

  /** Some run that follows the rule leads from m to r. */
  ghost predicate Leads(rule: Rule, m: Mutex, r: Mutex) {
    exists es: seq<Step> :: Runs(rule, m, es, r)
  }

  lemma LeadsOn(rule: Rule, m: Mutex, r: Mutex, e: Step)
    requires Leads(rule, m, r) && Enabled(r, e) && Allowed(rule, r, e)
    ensures Leads(rule, m, Next(r, e))
  {
    var es :| Runs(rule, m, es, r);
    RunsOn(rule, m, es, r, e);
  }

  lemma LeadsHere(rule: Rule, m: Mutex)
    ensures Leads(rule, m, m)
  {
    assert Runs(rule, m, [], m);
  }

  /** The mutex is free while u, the last owner or not, waits uncounted; the counter is still right. */
  ghost predicate Adrift(m: Mutex, u: nat, t: nat, last: nat) {
    && u < |m.ts| && t < |m.ts| && u != t && !m.locked && m.tid == Id(last)
    && m.ts[u] == Woken(false) && m.waiting == Sum(m.ts, Counted)
  }

  lemma BreakSetsAdrift(m: Mutex, t: nat, u: nat)
    requires Inv(m) && Enabled(m, UnlockDo(t)) && m.locked && u < |m.ts| && m.tid == Id(u) && IsWaiting(m.ts[u])
    ensures var m1 := Next(m, UnlockDo(t));
            Enabled(m1, Wakeup(t)) && var r := Next(m1, Wakeup(t)); Adrift(r, u, t, u) && r.ts[t].Idle?
  {
    assert ThreadOk(m, u) && u != t;
    var m1 := Next(m, UnlockDo(t));
    var m2 := Next(m1, Wakeup(t));
    CountUpdate(m, t, Waking);
    CountUpdate(m1, t, Idle);
    SumSame(m2.ts, m1.ts[t := Idle], Counted, Counted);
  }

  lemma AdriftStays(m: Mutex, u: nat, t: nat) returns (r: Mutex)
    requires Adrift(m, u, t, u) && m.ts[t].Idle?
    ensures Leads(Any, m, r) && Adrift(r, u, t, t)
  {
    var m1 := Next(m, Lock(t));
    CountUpdate(m, t, Idle);
    var m2 := Next(m1, UnlockCheck(t));
    CountUpdate(m1, t, Unlocking);
    r := Next(m2, UnlockDo(t));
    CountUpdate(m2, t, Waking);
    LeadsHere(Any, m);
    LeadsOn(Any, m, m, Lock(t));
    LeadsOn(Any, m, m1, UnlockCheck(t));
    LeadsOn(Any, m, m2, UnlockDo(t));
  }

  /**
   A break always costs the counter: from any state with the invariant, the release under a waiting owner leads to a
   count that is one too low. The thread that released wakes the owner, takes the mutex and releases it, and the owner
   then takes back an increment it never made.
   */
  lemma BreakLosesCount(m: Mutex, t: nat) returns (r: Mutex)
    requires Inv(m) && Enabled(m, UnlockDo(t)) && Breaks(m, UnlockDo(t))
    ensures Leads(Any, m, r) && r.waiting == Sum(r.ts, Counted) - 1
  {
    var u: nat :| u < |m.ts| && m.tid == Id(u) && IsWaiting(m.ts[u]);
    BreakSetsAdrift(m, t, u);
    var m1 := Next(m, UnlockDo(t));
    var m2 := Next(m1, Wakeup(t));
    LeadsHere(Any, m);
    LeadsOn(Any, m, m, UnlockDo(t));
    LeadsOn(Any, m, m1, Wakeup(t));
    var m3 := AdriftStays(m2, u, t);
    LeadsThrough(Any, m, m2, m3);
    LeadsOn(Any, m, m3, Retest(u));
    r := Next(m3, Retest(u));
    CountUpdate(m3, u, Idle);
  }

  lemma {:induction false} LeadsThrough(rule: Rule, m: Mutex, k: Mutex, r: Mutex)
    requires Leads(rule, m, k) && Leads(rule, k, r)
    ensures Leads(rule, m, r)
  {
    var es :| Runs(rule, k, es, r);
    RunsAfter(rule, m, k, es, r);
  }

  lemma {:induction false} RunsAfter(rule: Rule, m: Mutex, k: Mutex, es: seq<Step>, r: Mutex)
    requires Leads(rule, m, k) && Runs(rule, k, es, r)
    ensures Leads(rule, m, r)
    decreases |es|
  {
    if es != [] {
      LeadsOn(rule, m, k, es[0]);
      RunsAfter(rule, m, Next(k, es[0]), es[1..], r);
    }
  }

  /** Thread t is about to release a mutex that v took meanwhile. */
  function StaleUnlock(n: nat, t: nat, v: nat): Mutex
    requires t < n && v < n && t != v
  {
    Mutex(true, Id(v), 0, Init(n).ts[t := Unlocking])
  }

  /** For any two threads there is a run, without relocks, to that state: t unlocks twice, and v locks in between. */
  lemma StaleUnlockHappens(n: nat, t: nat, v: nat)
    requires t < n && v < n && t != v
    ensures Leads(NoRelock, Init(n), StaleUnlock(n, t, v))
  {
    var m0 := Init(n);
    var m1, m2 := Mutex(true, Id(t), 0, m0.ts), Mutex(true, Id(t), 0, m0.ts[t := Unlocking]);
    var m3, m4 := Mutex(false, Id(t), 0, m0.ts[t := Waking]), Mutex(false, Id(t), 0, m0.ts);
    var m5 := Mutex(false, Id(t), 0, m0.ts[t := Unlocking]);
    LeadsHere(NoRelock, m0);
    LeadsOn(NoRelock, m0, m0, Lock(t));
    assert Next(m0, Lock(t)) == m1;
    LeadsOn(NoRelock, m0, m1, UnlockCheck(t));
    assert Next(m1, UnlockCheck(t)) == m2;
    LeadsOn(NoRelock, m0, m2, UnlockDo(t));
    assert Next(m2, UnlockDo(t)) == m3;
    LeadsOn(NoRelock, m0, m3, Wakeup(t));
    assert Next(m3, Wakeup(t)) == m4;
    LeadsOn(NoRelock, m0, m4, UnlockCheck(t));
    assert Next(m4, UnlockCheck(t)) == m5;
    LeadsOn(NoRelock, m0, m5, Lock(v));
    assert Next(m5, Lock(v)) == StaleUnlock(n, t, v);
  }

  /**
   The rule of holders is needed for the holds: in a reachable state, for any two threads, an unlock by t, which does not
   hold the mutex, takes it from v, which does and has called no unlock.
   */
  lemma StaleUnlockReleasesAnother(n: nat, t: nat, v: nat)
    requires t < n && v < n && t != v
    ensures var m := StaleUnlock(n, t, v);
            && Reachable(NoRelock, m) && m.locked && m.tid == Id(v) && m.ts[v] == Idle
            && Enabled(m, UnlockDo(t)) && !Next(m, UnlockDo(t)).locked
  {
    StaleUnlockHappens(n, t, v);
  }

  /** Without either rule the count does go wrong: v also locks the mutex it holds, and then t releases it. */
  lemma CountGoesWrong(n: nat, t: nat, v: nat) returns (r: Mutex)
    requires t < n && v < n && t != v
    ensures Reachable(Any, r) && r.waiting == Sum(r.ts, Counted) - 1
  {
    var m := StaleUnlock(n, t, v);
    StaleUnlockHappens(n, t, v);
    var es :| Runs(NoRelock, Init(n), es, m);
    RunsFreely(Init(n), es, m);
    LeadsOn(Any, Init(n), m, Lock(v));
    var k := Next(m, Lock(v));
    RulesAvoidBreaks(NoRelock, m);
    ReachableInv(m);
    StepKeepsIff(m, Lock(v));
    assert IsWaiting(k.ts[v]);
    r := BreakLosesCount(k, t);
    LeadsThrough(Any, Init(n), k, r);
  }

  lemma {:induction false} RunsFreely(m: Mutex, es: seq<Step>, r: Mutex)
    requires Runs(NoRelock, m, es, r)
    ensures Runs(Any, m, es, r)
    decreases |es|
  {
    if es != [] {
      RunsFreely(Next(m, es[0]), es[1..], r);
    }
  }
}
