/**
 begin_op, end_op and log_write of log.c as a step system over any number of threads.

 `log_write` reads its guard before it takes `log.lock`, so its check and its append are two steps and other
 threads may run between them. Every other step is one critical section under `log.lock`; the commit itself
 runs without the lock, between the step that sets `committing` and the step that clears it. `logged` is the set
 of block numbers in the in-memory header, so log absorption is set union. The discipline assumed of operations is
 the one param.h states: one operation writes at most MAXOPBLOCKS distinct blocks.
 */
module LogAdmission {
  import opened Common
  import opened Counting

  /**
   `mine` is the set of distinct blocks the operation has logged so far; `pending` is the block whose
   `log_write` has passed the guard and has not taken the lock yet.
   */
  datatype Thread = Idle | Ready | Asleep | InOp(mine: set<nat>, pending: Option) | Committing | Committed

  datatype State = State(logged: set<nat>, outstanding: int, committing: bool, ts: seq<Thread>)

  datatype Step =
    | Begin(t: nat)
    | Check(t: nat, b: nat)
    | Append(t: nat)
    | EndOp(t: nat)
    | CommitRuns(t: nat)
    | CommitEnds(t: nat)

  /** The condition under which `begin_op` sleeps. */
  predicate MustWait(s: State) {
    s.committing || |s.logged| + (s.outstanding + 1) * MAXOPBLOCKS > LOGSIZE
  }

  /** The condition under which `log_write` does not panic about the size of the transaction. */
  predicate GuardPasses(size: nat, s: State) {
    |s.logged| < LOGSIZE && |s.logged| < size - 1
  }

  /** `wakeup(&log)`: every sleeper becomes runnable. */
  function WakeAll(ts: seq<Thread>): (r: seq<Thread>)
    ensures |r| == |ts|
    ensures forall i | 0 <= i < |ts| :: r[i] == if ts[i].Asleep? then Ready else ts[i]
  {
    seq(|ts|, i requires 0 <= i < |ts| => if ts[i].Asleep? then Ready else ts[i])
  }

  /** An operation that may call `log_write` for b within its budget of distinct blocks. */
  predicate MayLog(t: Thread, b: nat) {
    t.InOp? && t.pending.None? && |t.mine + {b}| <= MAXOPBLOCKS
  }

  /** Which step a thread may take next; an operation stays within its budget of distinct blocks. */
  predicate Enabled(size: nat, s: State, e: Step) {
    match e
    case Begin(t) => t < |s.ts| && (s.ts[t].Idle? || s.ts[t].Ready?)
    case Check(t, b) => t < |s.ts| && MayLog(s.ts[t], b) && GuardPasses(size, s)
    case Append(t) => t < |s.ts| && s.ts[t].InOp? && s.ts[t].pending.Some?
    case EndOp(t) => t < |s.ts| && s.ts[t].InOp? && s.ts[t].pending.None?
    case CommitRuns(t) => t < |s.ts| && s.ts[t].Committing?
    case CommitEnds(t) => t < |s.ts| && s.ts[t].Committed?
  }

  function Next(size: nat, s: State, e: Step): (r: State)
    requires Enabled(size, s, e)
  {
    var t := e.t;
    match e
    case Begin(_) =>
      if MustWait(s) then s.(ts := s.ts[t := Asleep])
      else s.(outstanding := s.outstanding + 1, ts := s.ts[t := InOp({}, None)])
    case Check(_, b) => s.(ts := s.ts[t := InOp(s.ts[t].mine, Some(b))])
    case Append(_) =>
      var b := s.ts[t].pending.value;
      s.(logged := s.logged + {b}, ts := s.ts[t := InOp(s.ts[t].mine + {b}, None)])
    case EndOp(_) =>
      if s.outstanding - 1 == 0 then s.(outstanding := 0, committing := true, ts := s.ts[t := Committing])
      else s.(outstanding := s.outstanding - 1, ts := WakeAll(s.ts[t := Idle]))
    case CommitRuns(_) => s.(logged := {}, ts := s.ts[t := Committed])
    case CommitEnds(_) => s.(committing := false, ts := WakeAll(s.ts[t := Idle]))
  }

  // ------------------------------------------------------------------ the invariant

  ghost function Operating(t: Thread): (n: int) {
    if t.InOp? then 1 else 0
  }

  ghost function Spare(t: Thread): (n: int) {
    if t.InOp? then MAXOPBLOCKS - |t.mine| else 0
  }

  ghost function CommitWork(t: Thread): (n: int) {
    if t.Committing? || t.Committed? then 1 else 0
  }

  ghost predicate Inv(s: State) {
    && s.outstanding == Sum(s.ts, Operating)
    && Sum(s.ts, CommitWork) == (if s.committing then 1 else 0)
    && |s.logged| + Sum(s.ts, Spare) <= LOGSIZE
    && (s.committing ==> s.outstanding == 0)
    && (!s.committing && s.outstanding == 0 ==> s.logged == {})
    && forall i | 0 <= i < |s.ts| :: ThreadOk(s, s.ts[i])
  }

  ghost predicate ThreadOk(s: State, t: Thread) {
    && (t.InOp? ==> t.mine <= s.logged && |t.mine| <= MAXOPBLOCKS)
    && (t.InOp? && t.pending.Some? ==> |t.mine + {t.pending.value}| <= MAXOPBLOCKS)
    && (t.Committed? ==> s.logged == {})
    && (t.Asleep? ==> MustWait(s))
  }

  function Init(n: nat): (s: State) {
    State({}, 0, false, seq(n, _ => Idle))
  }

  lemma InitInv(n: nat)
    ensures Inv(Init(n))
  {
    var ts := Init(n).ts;
    SumBetween(ts, Operating, 0, 0);
    SumBetween(ts, Spare, 0, 0);
    SumBetween(ts, CommitWork, 0, 0);
  }

  lemma WakeAllKeepsSums(ts: seq<Thread>)
    ensures Sum(WakeAll(ts), Operating) == Sum(ts, Operating)
    ensures Sum(WakeAll(ts), Spare) == Sum(ts, Spare)
    ensures Sum(WakeAll(ts), CommitWork) == Sum(ts, CommitWork)
  {
    SumSame(WakeAll(ts), ts, Operating, Operating);
    SumSame(WakeAll(ts), ts, Spare, Spare);
    SumSame(WakeAll(ts), ts, CommitWork, CommitWork);
  }

  lemma SumsUpdate(ts: seq<Thread>, i: nat, t: Thread)
    requires i < |ts|
    ensures Sum(ts[i := t], Operating) == Sum(ts, Operating) - Operating(ts[i]) + Operating(t)
    ensures Sum(ts[i := t], Spare) == Sum(ts, Spare) - Spare(ts[i]) + Spare(t)
    ensures Sum(ts[i := t], CommitWork) == Sum(ts, CommitWork) - CommitWork(ts[i]) + CommitWork(t)
  {
    SumUpdate(ts, i, t, Operating);
    SumUpdate(ts, i, t, Spare);
    SumUpdate(ts, i, t, CommitWork);
  }

  /** No operation reserves more than MAXOPBLOCKS, and none reserves less than nothing. */
  lemma {:induction false} SpareBounds(s: State, ts: seq<Thread>)
    requires forall i | 0 <= i < |ts| :: ThreadOk(s, ts[i])
    ensures 0 <= Sum(ts, Spare) <= MAXOPBLOCKS * Sum(ts, Operating)
    ensures 0 <= Sum(ts, Operating) && 0 <= Sum(ts, CommitWork)
    decreases |ts|
  {
    if ts != [] {
      SpareBounds(s, ts[..|ts| - 1]);
    }
  }

  /** A thread inside an operation is counted, and excludes a commit. */
  lemma InOpCounted(s: State, i: nat)
    requires Inv(s) && i < |s.ts| && s.ts[i].InOp?
    ensures s.outstanding >= 1 && !s.committing
    ensures |s.logged| + Spare(s.ts[i]) <= LOGSIZE
  {
    SumAtLeast(s.ts, i, Operating);
    SumAtLeast(s.ts, i, Spare);
  }

  /** A thread at work on a commit is the only one, and excludes operations. */
  lemma CommitterCounted(s: State, i: nat)
    requires Inv(s) && i < |s.ts| && CommitWork(s.ts[i]) == 1
    ensures s.committing && s.outstanding == 0
    ensures forall j | 0 <= j < |s.ts| && j != i :: CommitWork(s.ts[j]) == 0 && !s.ts[j].InOp?
  {
    SumAtLeast(s.ts, i, CommitWork);
    forall j | 0 <= j < |s.ts| && s.ts[j].InOp?
      ensures false
    {
      InOpCounted(s, j);
    }
  }

  lemma UnionSize(a: set<nat>, b: nat)
    ensures |a + {b}| == |a| + if b in a then 0 else 1
  {
    if b in a {
      assert a + {b} == a;
    }
  }

  lemma BeginKeeps(size: nat, s: State, t: nat)
    requires Inv(s) && Enabled(size, s, Begin(t))
    ensures Inv(Next(size, s, Begin(t)))
  {
    SpareBounds(s, s.ts);
    SumsUpdate(s.ts, t, if MustWait(s) then Asleep else InOp({}, None));
  }

  lemma CheckKeeps(size: nat, s: State, t: nat, b: nat)
    requires Inv(s) && Enabled(size, s, Check(t, b))
    ensures Inv(Next(size, s, Check(t, b)))
  {
    SumsUpdate(s.ts, t, InOp(s.ts[t].mine, Some(b)));
  }

  lemma AppendKeeps(size: nat, s: State, t: nat)
    requires Inv(s) && Enabled(size, s, Append(t))
    ensures Inv(Next(size, s, Append(t)))
  {
    var b := s.ts[t].pending.value;
    InOpCounted(s, t);
    UnionSize(s.logged, b);
    UnionSize(s.ts[t].mine, b);
    SumsUpdate(s.ts, t, InOp(s.ts[t].mine + {b}, None));
    var r := Next(size, s, Append(t));
    forall i | 0 <= i < |s.ts|
      ensures ThreadOk(r, r.ts[i])
    {
      assert ThreadOk(s, s.ts[i]);
      NoCommitted(s, t);
    }
  }

  lemma NoCommitted(s: State, t: nat)
    requires Inv(s) && t < |s.ts| && s.ts[t].InOp?
    ensures forall i | 0 <= i < |s.ts| :: !s.ts[i].Committed?
  {
    forall i | 0 <= i < |s.ts| && s.ts[i].Committed?
      ensures false
    {
      CommitterCounted(s, i);
    }
  }

  /** The last operation to end starts the commit. */
  lemma EndLastKeeps(size: nat, s: State, t: nat)
    requires Inv(s) && Enabled(size, s, EndOp(t)) && s.outstanding == 1
    ensures Inv(Next(size, s, EndOp(t)))
  {
    InOpCounted(s, t);
    SpareBounds(s, s.ts);
    SumsUpdate(s.ts, t, Committing);
    forall i | 0 <= i < |s.ts| && i != t && s.ts[i].InOp?
      ensures false
    {
      assert forall k | 0 <= k < |s.ts| :: Operating(s.ts[k]) >= 0;
      SumAtLeast(s.ts, t, Operating);
    }
  }

  lemma EndOpKeeps(size: nat, s: State, t: nat)
    requires Inv(s) && Enabled(size, s, EndOp(t))
    ensures Inv(Next(size, s, EndOp(t)))
  {
    InOpCounted(s, t);
    if s.outstanding == 1 {
      EndLastKeeps(size, s, t);
    } else {
      SumsUpdate(s.ts, t, Idle);
      WakeAllKeepsSums(s.ts[t := Idle]);
    }
  }

  lemma CommitKeeps(size: nat, s: State, e: Step)
    requires Inv(s) && (e.CommitRuns? || e.CommitEnds?) && Enabled(size, s, e)
    ensures Inv(Next(size, s, e))
  {
    CommitterCounted(s, e.t);
    SumsUpdate(s.ts, e.t, Committed);
    SumsUpdate(s.ts, e.t, Idle);
    WakeAllKeepsSums(s.ts[e.t := Idle]);
  }

  /** Every step keeps the invariant. */
  lemma StepKeeps(size: nat, s: State, e: Step)
    requires Inv(s) && Enabled(size, s, e)
    ensures Inv(Next(size, s, e))
  {
    match e {
      case Begin(t) => BeginKeeps(size, s, t);
      case Check(t, b) => CheckKeeps(size, s, t, b);
      case Append(t) => AppendKeeps(size, s, t);
      case EndOp(t) => EndOpKeeps(size, s, t);
      case CommitRuns(_) => CommitKeeps(size, s, e);
      case CommitEnds(_) => CommitKeeps(size, s, e);
    }
  }

  /** `r` is the end of the run `es` from `s`. */
  ghost predicate Runs(size: nat, s: State, es: seq<Step>, r: State)
    decreases |es|
  {
    if es == [] then r == s
    else Enabled(size, s, es[0]) && Runs(size, Next(size, s, es[0]), es[1..], r)
  }

  ghost predicate Reachable(size: nat, s: State) {
    exists n: nat, es: seq<Step> :: Runs(size, Init(n), es, s)
  }

  lemma {:induction false} RunKeeps(size: nat, s: State, es: seq<Step>, r: State)
    requires Inv(s) && Runs(size, s, es, r)
    ensures Inv(r)
    decreases |es|
  {
    if es != [] {
      StepKeeps(size, s, es[0]);
      RunKeeps(size, Next(size, s, es[0]), es[1..], r);
    }
  }

  lemma ReachableInv(size: nat, s: State)
    requires Reachable(size, s)
    ensures Inv(s)
  {
    var n: nat, es: seq<Step> :| Runs(size, Init(n), es, s);
    InitInv(n);
    RunKeeps(size, Init(n), es, s);
  }

  // ------------------------------------------------------------------ what holds in every reachable state

  /**
   The reservation: what is logged plus what the operations in progress may still add fits the log, and a log
   with no operation and no commit is empty.
   */
  lemma BudgetHolds(size: nat, s: State)
    requires Reachable(size, s)
    ensures |s.logged| + Sum(s.ts, Spare) <= LOGSIZE
    ensures s.outstanding == Sum(s.ts, Operating)
    ensures s.outstanding == 0 && !s.committing ==> s.logged == {}
    ensures s.committing ==> s.outstanding == 0
  {
    ReachableInv(size, s);
  }

  /** `end_op` never reaches its panic about a commit in progress. */
  lemma EndOpNeverPanics(size: nat, s: State, t: nat)
    requires Reachable(size, s) && t < |s.ts| && s.ts[t].InOp?
    ensures !s.committing && s.outstanding >= 1
  {
    ReachableInv(size, s);
    InOpCounted(s, t);
  }

  /**
   `begin_op` admits a thread exactly when no commit runs and the log has room for what is logged and for a full budget
   of every operation in progress and of this one; otherwise the thread sleeps, and nothing else changes.
   */
  lemma BeginAdmitsIff(size: nat, s: State, t: nat)
    requires Reachable(size, s) && Enabled(size, s, Begin(t))
    ensures var r := Next(size, s, Begin(t));
            && (r.ts[t] == InOp({}, None) <==>
                  !s.committing && |s.logged| + (Sum(s.ts, Operating) + 1) * MAXOPBLOCKS <= LOGSIZE)
            && r.ts == s.ts[t := if r.ts[t].InOp? then InOp({}, None) else Asleep]
            && r.outstanding == Sum(r.ts, Operating) && r.logged == s.logged && r.committing == s.committing
  {
    ReachableInv(size, s);
    StepKeeps(size, s, Begin(t));
  }

  /** While an operation has logged m blocks, however many of its share, a second one is admitted. */
  lemma AdmittedWhileLogged(size: nat, m: nat) returns (s: State)
    requires m <= MAXOPBLOCKS && m < size
    ensures Reachable(size, s) && |s.logged| == m && s.ts == [InOp(Interval(0, m), None), Idle]
    ensures Enabled(size, s, Begin(1)) && Next(size, s, Begin(1)).ts == [InOp(Interval(0, m), None), InOp({}, None)]
  {
    var es := AloneIsReachable(size, m);
    s := Alone(m);
    assert Next(size, s, Begin(1)).ts == [InOp(Interval(0, m), None), InOp({}, None)];
  }

  /** One operation that has logged the first m blocks, and a thread that has not begun one. */
  ghost function Alone(m: nat): (s: State) {
    State(Interval(0, m), 1, false, [InOp(Interval(0, m), None), Idle])
  }

  lemma {:induction false} AloneIsReachable(size: nat, m: nat) returns (es: seq<Step>)
    requires m <= MAXOPBLOCKS && m < size
    ensures Runs(size, Init(2), es, Alone(m))
  {
    if m == 0 {
      var s := Next(size, Init(2), Begin(0));
      RunsAppend(size, Init(2), [], Init(2), Begin(0));
      es := [] + [Begin(0)];
      assert s.ts == Alone(0).ts;
    } else {
      es := AloneIsReachable(size, m - 1);
      es := WriteRuns(size, Init(2), es, Alone(m - 1), 0, m - 1);
      assert Logged(Alone(m - 1), 0, m - 1).ts == Alone(m).ts;
    }
  }

  /**
   `end_op` starts a commit exactly when no other operation is in progress. If there is one, it wakes every sleeper; the
   commit does so at its end.
   */
  lemma EndCommitsIff(size: nat, s: State, t: nat)
    requires Reachable(size, s) && Enabled(size, s, EndOp(t))
    ensures var r := Next(size, s, EndOp(t));
            && r.logged == s.logged && r.outstanding == Sum(r.ts, Operating)
            && (r.committing <==> forall i | 0 <= i < |s.ts| && s.ts[i].InOp? :: i == t)
            && (r.committing ==> r.ts == s.ts[t := Committing])
            && (!r.committing ==> |r.ts| == |s.ts| && forall i | 0 <= i < |s.ts| ::
                  r.ts[i] == if i == t then Idle else if s.ts[i].Asleep? then Ready else s.ts[i])
  {
    ReachableInv(size, s);
    StepKeeps(size, s, EndOp(t));
    InOpCounted(s, t);
    AloneIff(s, t);
  }

  lemma AloneIff(s: State, t: nat)
    requires Inv(s) && t < |s.ts| && s.ts[t].InOp?
    ensures s.outstanding == 1 <==> forall i | 0 <= i < |s.ts| && s.ts[i].InOp? :: i == t
  {
    InOpCounted(s, t);
    SumUpdate(s.ts, t, Idle, Operating);
    if s.outstanding == 1 {
      SumAtLeast(s.ts, t, Operating);
    } else {
      var i := SumWitness(s.ts[t := Idle], Operating);
      assert s.ts[i].InOp?;
    }
  }

  /** The end of a commit leaves an empty log, no operation in progress and no sleeper. */
  lemma CommitEndWakesAll(size: nat, s: State, t: nat)
    requires Reachable(size, s) && Enabled(size, s, CommitEnds(t))
    ensures var r := Next(size, s, CommitEnds(t));
            && r.logged == {} && r.outstanding == 0 && !r.committing && |r.ts| == |s.ts|
            && forall i | 0 <= i < |s.ts| :: r.ts[i] == if i == t then Idle else if s.ts[i].Asleep? then Ready else s.ts[i]
  {
    ReachableInv(size, s);
    CommitterCounted(s, t);
    assert ThreadOk(s, s.ts[t]);
  }

  /** `log_write` passes exactly with fewer blocks listed than LOGSIZE and than the log holds; then it lists the block. */
  lemma WriteListsIff(size: nat, s: State, t: nat, b: nat)
    requires Reachable(size, s) && t < |s.ts| && MayLog(s.ts[t], b)
    ensures Enabled(size, s, Check(t, b)) <==> |s.logged| < LOGSIZE && |s.logged| + 1 < size
    ensures Enabled(size, s, Check(t, b)) ==>
              && var c := Next(size, s, Check(t, b));
              && Enabled(size, c, Append(t))
              && var r := Next(size, c, Append(t));
              && r.logged == s.logged + {b} && |r.logged| == |s.logged| + (if b in s.logged then 0 else 1)
              && r.ts == s.ts[t := InOp(s.ts[t].mine + {b}, None)]
              && r.outstanding == s.outstanding && r.committing == s.committing
  {
    UnionSize(s.logged, b);
  }

  /** A log at rest admits an operation. */
  lemma QuiescentLogAdmits(size: nat, s: State, t: nat)
    requires Reachable(size, s) && Enabled(size, s, Begin(t))
    requires s.outstanding == 0 && !s.committing
    ensures Next(size, s, Begin(t)).ts[t] == InOp({}, None)
  {
    BudgetHolds(size, s);
  }

  /**
   No wakeup is lost: for a sleeper in `begin_op` a commit runs, or the log has no room for a full budget of one more
   operation; and some thread is inside an operation or a commit, at whose end it calls `wakeup`.
   */
  lemma SleeperIsOwedAWakeup(size: nat, s: State, t: nat) returns (w: nat)
    requires Reachable(size, s) && t < |s.ts| && s.ts[t].Asleep?
    ensures s.committing || |s.logged| + (Sum(s.ts, Operating) + 1) * MAXOPBLOCKS > LOGSIZE
    ensures w < |s.ts| && (s.ts[w].InOp? || s.ts[w].Committing? || s.ts[w].Committed?)
  {
    ReachableInv(size, s);
    assert ThreadOk(s, s.ts[t]);
    SpareBounds(s, s.ts);
    if s.committing {
      w := SumWitness(s.ts, CommitWork);
    } else {
      w := SumWitness(s.ts, Operating);
    }
  }

  // ------------------------------------------------------------------ how large the on-disk log must be

  /** With a log of LOGSIZE + 1 blocks, an operation that logs a block new to it, within budget, never panics. */
  lemma InBudgetWritePasses(size: nat, s: State, t: nat, b: nat)
    requires Reachable(size, s) && size >= LOGSIZE + 1
    requires t < |s.ts| && MayLog(s.ts[t], b) && b !in s.ts[t].mine
    ensures GuardPasses(size, s)
  {
    ReachableInv(size, s);
    UnionSize(s.ts[t].mine, b);
    InOpCounted(s, t);
  }

  /** Even then a panic is possible, but only by writing a block again when every budget is used up. */
  lemma PanicOnlyOnRewriteOfFullLog(size: nat, s: State, t: nat, b: nat)
    requires Reachable(size, s) && size >= LOGSIZE + 1
    requires t < |s.ts| && MayLog(s.ts[t], b) && !GuardPasses(size, s)
    ensures b in s.ts[t].mine && |s.logged| == LOGSIZE
    ensures forall i | 0 <= i < |s.ts| && s.ts[i].InOp? :: |s.ts[i].mine| == MAXOPBLOCKS
  {
    ReachableInv(size, s);
    UnionSize(s.ts[t].mine, b);
    InOpCounted(s, t);
    forall i | 0 <= i < |s.ts| && s.ts[i].InOp?
      ensures |s.ts[i].mine| == MAXOPBLOCKS
    {
      assert ThreadOk(s, s.ts[i]);
      InOpCounted(s, i);
    }
  }

  /** Three operations that have logged blocks 0, 1, 2, ... up to m, taking turns. */
  ghost function Filled(m: nat): (s: State) {
    State(Interval(0, m), 3, false, seq(3, i requires 0 <= i < 3 => InOp(Share(i, m), None)))
  }

  /** The part of the first m blocks that operation i logs. */
  ghost function Share(i: nat, m: nat): (r: set<nat>)
    requires i < 3
    ensures forall x | x in r :: x < m
    ensures 3 * |r| <= m + 2 - i
  {
    if m == 0 then {} else if (m - 1) % 3 == i then Share(i, m - 1) + {m - 1} else Share(i, m - 1)
  }

  lemma {:induction false} RunsAppend(size: nat, s: State, es: seq<Step>, r: State, e: Step)
    requires Runs(size, s, es, r) && Enabled(size, r, e)
    ensures Runs(size, s, es + [e], Next(size, r, e))
    decreases |es|
  {
    if es == [] {
      assert Runs(size, Next(size, s, e), [], Next(size, s, e));
      assert (es + [e])[1..] == [];
    } else {
      RunsAppend(size, Next(size, s, es[0]), es[1..], r, e);
      assert (es + [e])[1..] == es[1..] + [e];
    }
  }

  lemma {:induction false} FilledIsReachable(size: nat, m: nat) returns (es: seq<Step>)
    requires m <= LOGSIZE && (m > 0 ==> m < size)
    ensures Runs(size, Init(3), es, Filled(m))
  {
    if m == 0 {
      es := ThreeBegin(size);
    } else {
      es := FilledIsReachable(size, m - 1);
      es := FillOne(size, es, m - 1);
    }
  }

  lemma FillOne(size: nat, es: seq<Step>, m: nat) returns (r: seq<Step>)
    requires m < LOGSIZE && m < size - 1 && Runs(size, Init(3), es, Filled(m))
    ensures Runs(size, Init(3), r, Filled(m + 1))
  {
    TurnHasRoom(m, m);
    r := WriteRuns(size, Init(3), es, Filled(m), Turn(m), m);
    FilledNext(m);
  }

  ghost function Turn(m: nat): (i: nat)
    ensures i < 3
  {
    m % 3
  }

  /** The operation whose turn it is has room for one more of the LOGSIZE blocks. */
  lemma TurnHasRoom(m: nat, b: nat)
    requires m < LOGSIZE
    ensures MayLog(Filled(m).ts[Turn(m)], b)
    ensures m + 1 < LOGSIZE ==> MayLog(Filled(m).ts[Turn(m + 1)], b) && Turn(m) != Turn(m + 1)
  {
    ShareHasRoom(Turn(m), m, b);
    if m + 1 < LOGSIZE {
      ShareHasRoom(Turn(m + 1), m, b);
    }
  }

  lemma ShareHasRoom(i: nat, m: nat, b: nat)
    requires i < 3 && m < 28 + i
    ensures MayLog(InOp(Share(i, m), None), b)
  {
    UnionSize(Share(i, m), b);
  }

  lemma FilledNext(m: nat)
    ensures Logged(Filled(m), Turn(m), m) == Filled(m + 1)
  {
    var r := Logged(Filled(m), Turn(m), m);
    assert forall i | 0 <= i < 3 :: r.ts[i] == Filled(m + 1).ts[i];
  }

  /** The state after operation t has logged b, check and append. */
  ghost function Logged(s: State, t: nat, b: nat): (r: State)
    requires t < |s.ts| && s.ts[t].InOp?
  {
    s.(logged := s.logged + {b}, ts := s.ts[t := InOp(s.ts[t].mine + {b}, None)])
  }

  lemma WriteRuns(size: nat, o: State, es: seq<Step>, s: State, t: nat, b: nat) returns (r: seq<Step>)
    requires Runs(size, o, es, s) && t < |s.ts| && MayLog(s.ts[t], b) && GuardPasses(size, s)
    ensures Runs(size, o, r, Logged(s, t, b))
  {
    var c := Next(size, s, Check(t, b));
    RunsAppend(size, o, es, s, Check(t, b));
    RunsAppend(size, o, es + [Check(t, b)], c, Append(t));
    r := es + [Check(t, b)] + [Append(t)];
    assert Next(size, c, Append(t)) == Logged(s, t, b);
  }

  lemma ThreeBegin(size: nat) returns (es: seq<Step>)
    ensures Runs(size, Init(3), es, Filled(0))
  {
    var s0 := Init(3);
    var s1 := Next(size, s0, Begin(0));
    var s2 := Next(size, s1, Begin(1));
    var s3 := Next(size, s2, Begin(2));
    assert s3 == Filled(0) by {
      assert s3.ts == Filled(0).ts;
    }
    RunsAppend(size, s0, [], s0, Begin(0));
    RunsAppend(size, s0, [] + [Begin(0)], s1, Begin(1));
    RunsAppend(size, s0, [] + [Begin(0)] + [Begin(1)], s2, Begin(2));
    es := [] + [Begin(0)] + [Begin(1)] + [Begin(2)];
  }

  /**
   LOGSIZE + 1 is also necessary: with any smaller log, such as the LOGSIZE blocks that mkfs reserves, some
   reachable state has an operation with budget left whose next new block makes `log_write` panic.
   */
  lemma SmallerLogPanics(size: nat) returns (s: State, t: nat, b: nat)
    requires 1 <= size <= LOGSIZE
    ensures Reachable(size, s)
    ensures t < |s.ts| && MayLog(s.ts[t], b) && b !in s.ts[t].mine
    ensures !GuardPasses(size, s)
  {
    var m := size - 1;
    var es := FilledIsReachable(size, m);
    s, t, b := Filled(m), Turn(m), m;
    TurnHasRoom(m, b);
  }

  /** The remaining panic of a large enough log does happen: three full operations, one writes a block again. */
  lemma RewriteOfFullLogPanics(size: nat) returns (s: State)
    requires size >= LOGSIZE + 1
    ensures Reachable(size, s)
    ensures |s.ts| == 3 && MayLog(s.ts[2], 29) && 29 in s.ts[2].mine
    ensures !GuardPasses(size, s)
  {
    var m, i := LOGSIZE, 2;
    var es := FilledIsReachable(size, m);
    s := Filled(m);
    assert s.ts[i].mine == Share(i, m);
    UnionSize(s.ts[i].mine, 29);
  }

  /** A commit may have to write as many blocks as the cache has buffers, every one of them pinned. */
  lemma FullCommitHappens(size: nat) returns (s: State)
    requires size >= LOGSIZE + 1
    ensures Reachable(size, s)
    ensures |s.ts| == 3 && s.ts[2].Committing? && |s.logged| == LOGSIZE == NBUF
  {
    var es := FilledIsReachable(size, LOGSIZE);
    s := Filled(LOGSIZE);
    var i := 0;
    while i < 3
      invariant 0 <= i <= 3 && Runs(size, Init(3), es, s) && |s.ts| == 3 && s.logged == Filled(LOGSIZE).logged
      invariant forall j | i <= j < 3 :: s.ts[j].InOp? && s.ts[j].pending.None?
      invariant s.outstanding == 3 - i && (i == 3 ==> s.ts[2].Committing?)
    {
      RunsAppend(size, Init(3), es, s, EndOp(i));
      es, s := es + [EndOp(i)], Next(size, s, EndOp(i));
      i := i + 1;
    }
  }

  // ------------------------------------------------------------------ when the list fits the on-disk log

  /** Nothing is ever logged when the log has one block: the guard never passes. */
  lemma {:induction false} OneBlockLogStaysEmpty(s: State, es: seq<Step>, r: State)
    requires Runs(1, s, es, r) && s.logged == {}
    requires forall i | 0 <= i < |s.ts| && s.ts[i].InOp? :: s.ts[i].pending.None?
    ensures r.logged == {}
    decreases |es|
  {
    if es != [] {
      OneBlockLogStaysEmpty(Next(1, s, es[0]), es[1..], r);
    }
  }

  /**
   Two operations pass the guard while one place is left and then both append: the list has `size` blocks and
   the log only `size - 1` places for them.
   */
  lemma SmallerLogOverruns(size: nat) returns (s: State)
    requires 2 <= size <= LOGSIZE
    ensures Reachable(size, s)
    ensures |s.logged| > size - 1
  {
    var m := size - 2;
    var es := FilledIsReachable(size, m);
    TurnHasRoom(m, m);
    TurnHasRoom(m, m + 1);
    s := OverrunFrom(size, es, Filled(m), Turn(m), Turn(m + 1), m, m + 1);
  }

  /** Check, check, append, append. */
  lemma OverrunFrom(size: nat, es: seq<Step>, s: State, t: nat, u: nat, b: nat, c: nat) returns (r: State)
    requires Runs(size, Init(3), es, s) && GuardPasses(size, s) && b !in s.logged && c !in s.logged && b != c
    requires t < |s.ts| && u < |s.ts| && t != u && MayLog(s.ts[t], b) && MayLog(s.ts[u], c)
    ensures Reachable(size, r) && |r.logged| == |s.logged| + 2
  {
    var s1 := Next(size, s, Check(t, b));
    RunsAppend(size, Init(3), es, s, Check(t, b));
    var s2 := Next(size, s1, Check(u, c));
    RunsAppend(size, Init(3), es + [Check(t, b)], s1, Check(u, c));
    r := TwoAppends(size, es + [Check(t, b)] + [Check(u, c)], s2, t, u, b, c);
  }

  lemma TwoAppends(size: nat, es: seq<Step>, s: State, t: nat, u: nat, b: nat, c: nat) returns (r: State)
    requires Runs(size, Init(3), es, s) && b !in s.logged && c !in s.logged && b != c
    requires t < |s.ts| && u < |s.ts| && t != u && s.ts[t].InOp? && s.ts[u].InOp?
    requires s.ts[t].pending == Some(b) && s.ts[u].pending == Some(c)
    ensures Reachable(size, r) && |r.logged| == |s.logged| + 2
  {
    var s1 := Next(size, s, Append(t));
    RunsAppend(size, Init(3), es, s, Append(t));
    r := Next(size, s1, Append(u));
    RunsAppend(size, Init(3), es + [Append(t)], s1, Append(u));
  }

  /**
   The listed blocks fit behind the header in every reachable state, however the unlocked checks interleave,
   exactly for a log of LOGSIZE + 1 blocks or more (or of one block, to which nothing can be written).
   */
  lemma ListFitsIff(size: nat)
    requires size >= 1
    ensures (forall s | Reachable(size, s) :: |s.logged| <= size - 1) <==> size == 1 || size >= LOGSIZE + 1
  {
    if size == 1 {
      forall s | Reachable(size, s)
        ensures |s.logged| <= size - 1
      {
        var n: nat, es: seq<Step> :| Runs(size, Init(n), es, s);
        OneBlockLogStaysEmpty(Init(n), es, s);
      }
    } else if size <= LOGSIZE {
      var s := SmallerLogOverruns(size);
    } else {
      forall s | Reachable(size, s)
        ensures |s.logged| <= size - 1
      {
        ReachableInv(size, s);
        SpareBounds(s, s.ts);
      }
    }
  }
}
