/**
 The files of fs.c over the redo log of log.c: whatever a run of operations, commits, power failures and recoveries
 does, the disk recovers to a file system in order, the one after a whole number of committed groups.
 */
module CrashSafety {
  import opened Common
  import opened Blocks
  import opened FsDisk
  import opened Fs
  import Directory
  import File
  import L = Log

  /** The blocks hold a file system in order. */
  ghost predicate Good(sb: Super, blocks: seq<Block>) {
    exists x: State :: HoldsState(sb, blocks, x)
  }

  ghost predicate HoldsState(sb: Super, blocks: seq<Block>, x: State) {
    x.sb == sb && Holds(sb, blocks, x.bits, x.inodes, x.data) && FilesOk(x)
  }

  /** The log lies on the disk of the file system, before its inodes. */
  ghost predicate Placed(g: L.Geometry, sb: Super) {
    Layout(sb) && g.Valid() && g.nblocks == sb.size && g.start + g.size <= sb.inodestart
  }

  lemma HoldsSame(sb: Super, a: seq<Block>, b: seq<Block>, x: State)
    requires Holds(sb, a, x.bits, x.inodes, x.data) && |a| == |b|
    requires forall c | sb.inodestart <= c < sb.size :: a[c] == b[c]
    ensures Holds(sb, b, x.bits, x.inodes, x.data)
  {
    forall c: nat | c < sb.size
      ensures BitHolds(sb, b, x.bits, c)
    {
      assert BitHolds(sb, a, x.bits, c);
      assert c / BPB <= sb.size / BPB;
    }
    forall i: nat | i < sb.ninodes
      ensures InodeHolds(sb, b, x.inodes, i)
    {
      assert InodeHolds(sb, a, x.inodes, i);
      assert i / IPB <= sb.ninodes / IPB;
    }
  }

  /** Whether the file system is in order depends on the home blocks alone. */
  lemma GoodSame(g: L.Geometry, sb: Super, a: seq<Block>, b: seq<Block>)
    requires Placed(g, sb) && L.SameHome(g, a, b) && Good(sb, a)
    ensures Good(sb, b)
  {
    var x: State :| HoldsState(sb, a, x);
    forall c | sb.inodestart <= c < sb.size
      ensures a[c] == b[c]
    {
      assert g.IsHome(c);
    }
    HoldsSame(sb, a, b, x);
    assert HoldsState(sb, b, x);
  }

  // ------------------------------------------------------------------ runs

  /** A buffer changed and given to `log_write`. */
  datatype Put = Put(b: nat, data: Block)

  /**
   `Op` is all that happens from one moment at which no operation is under way to the next such moment; `Cut` is a
   power failure before that moment comes. The other events are those of the log.
   */
  datatype Event =
    | Op(us: seq<Put>)
    | Cut(us: seq<Put>)
    | Commit
    | CrashInCommit(landed: nat)
    | CrashInRecovery(landed: nat)
    | Recover

  ghost function Updates(us: seq<Put>): (es: seq<L.Event>)
    ensures |es| == |us|
  {
    seq(|us|, i requires 0 <= i < |us| => L.Update(us[i].b, us[i].data))
  }

  /** The events of the log that an event stands for. */
  ghost function Events(e: Event): (es: seq<L.Event>) {
    match e
    case Op(us) => Updates(us)
    case Cut(us) => Updates(us) + [L.CrashInCommit(0)]
    case Commit => [L.Commit]
    case CrashInCommit(k) => [L.CrashInCommit(k)]
    case CrashInRecovery(k) => [L.CrashInRecovery(k)]
    case Recover => [L.Recover]
  }

  /** Operations leave the file system in order; of what a power failure cuts short nothing is asked. */
  ghost predicate EventOk(g: L.Geometry, sb: Super, m: L.Machine, e: Event)
    requires L.MachineOk(g, m)
  {
    && L.RunOk(g, m, Events(e))
    && (e.Op? ==> m.Up? && var r := L.Run(g, m, Events(e)); r.Up? && Good(sb, r.view))
  }

  ghost predicate RunOk(g: L.Geometry, sb: Super, m: L.Machine, es: seq<Event>)
    requires L.MachineOk(g, m)
    decreases |es|
  {
    es == [] || (EventOk(g, sb, m, es[0]) && RunOk(g, sb, L.Run(g, m, Events(es[0])), es[1..]))
  }

  ghost function Run(g: L.Geometry, sb: Super, m: L.Machine, es: seq<Event>): (r: L.Machine)
    requires L.MachineOk(g, m) && RunOk(g, sb, m, es)
    ensures L.MachineOk(g, r)
    decreases |es|
  {
    if es == [] then m else Run(g, sb, L.Run(g, m, Events(es[0])), es[1..])
  }

  /** The committed groups, one after another, and the blocks that running code sees. */
  ghost function SpecRun(g: L.Geometry, sb: Super, m: L.Machine, s: L.Spec, es: seq<Event>): (r: L.Spec)
    requires L.MachineOk(g, m) && RunOk(g, sb, m, es) && s.groups != []
    ensures r.groups != [] && s.groups <= r.groups
    decreases |es|
  {
    if es == [] then s
    else SpecRun(g, sb, L.Run(g, m, Events(es[0])), L.SpecRun(g, m, s, Events(es[0])), es[1..])
  }

  /** Every committed group left the file system in order. */
  ghost predicate GroupsGood(sb: Super, s: L.Spec) {
    && s.groups != [] && Good(sb, s.current)
    && forall i | 0 <= i < |s.groups| :: Good(sb, s.groups[i])
  }

  /** Updates commit nothing. */
  lemma {:induction false} UpdatesKeepGroups(g: L.Geometry, m: L.Machine, s: L.Spec, us: seq<Put>, rest: seq<L.Event>)
    requires L.MachineOk(g, m) && s.groups != [] && L.RunOk(g, m, Updates(us) + rest)
    requires rest == [] || rest == [L.CrashInCommit(0)]
    ensures var t := L.SpecRun(g, m, s, Updates(us) + rest);
            t.groups == s.groups && (rest != [] ==> t.current == s.groups[|s.groups| - 1])
    decreases |us|
  {
    var es := Updates(us) + rest;
    if us != [] {
      assert es[0] == L.Update(us[0].b, us[0].data);
      assert es[1..] == Updates(us[1..]) + rest;
      L.StepOk(g, m, es[0]);
      UpdatesKeepGroups(g, L.Step(g, m, es[0]), L.SpecStep(s, es[0], L.HeaderAt(m)), us[1..], rest);
    } else if rest != [] {
      assert es == rest && rest[1..] == [];
      L.StepOk(g, m, es[0]);
    }
  }

  lemma OneEvent(g: L.Geometry, m: L.Machine, s: L.Spec, e: L.Event)
    requires L.MachineOk(g, m) && s.groups != [] && L.RunOk(g, m, [e])
    ensures L.SpecRun(g, m, s, [e]) == L.SpecStep(s, e, L.HeaderAt(m))
  {
    L.StepOk(g, m, e);
    assert [e][1..] == [];
  }

  /** After an operation, running code sees its end, a file system in order, and nothing is committed yet. */
  lemma OpKeeps(g: L.Geometry, sb: Super, m: L.Machine, s: L.Spec, us: seq<Put>, r: L.Machine, t: L.Spec)
    requires Placed(g, sb) && L.MachineOk(g, m) && GroupsGood(sb, s) && L.RunOk(g, m, Updates(us))
    requires t == L.SpecRun(g, m, s, Updates(us))
    requires L.MachineOk(g, r) && L.Implements(g, r, t) && r.Up? && Good(sb, r.view)
    ensures GroupsGood(sb, t)
  {
    assert Updates(us) == Updates(us) + [];
    UpdatesKeepGroups(g, m, s, us, []);
    GoodSame(g, sb, r.view, t.current);
  }

  /** The events of the log itself add at most the current blocks to the groups, or go back to the last group. */
  lemma LogEventKeeps(sb: Super, s: L.Spec, e: L.Event, headerAt: nat)
    requires GroupsGood(sb, s) && !e.Update?
    ensures GroupsGood(sb, L.SpecStep(s, e, headerAt))
  {
  }

  lemma EventKeeps(g: L.Geometry, sb: Super, m: L.Machine, s: L.Spec, e: Event)
    requires Placed(g, sb) && L.MachineOk(g, m) && L.Implements(g, m, s) && GroupsGood(sb, s) && EventOk(g, sb, m, e)
    ensures L.Implements(g, L.Run(g, m, Events(e)), L.SpecRun(g, m, s, Events(e)))
    ensures GroupsGood(sb, L.SpecRun(g, m, s, Events(e)))
  {
    L.EveryRunIsAtomic(g, m, s, Events(e));
    if e.Op? {
      OpKeeps(g, sb, m, s, e.us, L.Run(g, m, Events(e)), L.SpecRun(g, m, s, Events(e)));
    } else if e.Cut? {
      UpdatesKeepGroups(g, m, s, e.us, [L.CrashInCommit(0)]);
    } else {
      OneEvent(g, m, s, Events(e)[0]);
      LogEventKeeps(sb, s, Events(e)[0], L.HeaderAt(m));
    }
  }

  /**
   Crash safety over every run: the machine implements the list of committed groups, and each of them, as well as what
   running code sees between operations, is a file system in order.
   */
  lemma {:induction false} EveryRunIsCrashSafe(g: L.Geometry, sb: Super, m: L.Machine, s: L.Spec, es: seq<Event>)
    requires Placed(g, sb) && L.MachineOk(g, m) && L.Implements(g, m, s) && GroupsGood(sb, s) && RunOk(g, sb, m, es)
    ensures L.Implements(g, Run(g, sb, m, es), SpecRun(g, sb, m, s, es))
    ensures GroupsGood(sb, SpecRun(g, sb, m, s, es))
    decreases |es|
  {
    if es != [] {
      EventKeeps(g, sb, m, s, es[0]);
      EveryRunIsCrashSafe(g, sb, L.Run(g, m, Events(es[0])), L.SpecRun(g, m, s, Events(es[0])), es[1..]);
    }
  }

  /** Recovery on disk d yields a file system in order, with the home blocks of `last`. */
  ghost predicate RecoversTo(g: L.Geometry, sb: Super, d: seq<Block>, last: seq<Block>) {
    L.GoodDisk(g, d) && Good(sb, L.Recovered(g, d)) && L.SameHome(g, L.Recovered(g, d), last)
  }

  lemma LastGroupRecovers(g: L.Geometry, sb: Super, r: L.Machine, t: L.Spec)
    requires Placed(g, sb) && L.MachineOk(g, r) && L.Implements(g, r, t) && GroupsGood(sb, t)
    ensures RecoversTo(g, sb, r.disk, t.groups[|t.groups| - 1])
  {
    if r.Up? {
      L.EmptyHead(g, r.disk);
    }
    GoodSame(g, sb, t.groups[|t.groups| - 1], L.Recovered(g, r.disk));
  }

  /** What power failure at the end of any run leaves recovers to the last committed group, a file system in order. */
  lemma RecoversInOrder(g: L.Geometry, sb: Super, m: L.Machine, s: L.Spec, es: seq<Event>, r: L.Machine, t: L.Spec)
    requires Placed(g, sb) && L.MachineOk(g, m) && L.Implements(g, m, s) && GroupsGood(sb, s) && RunOk(g, sb, m, es)
    requires r == Run(g, sb, m, es) && t == SpecRun(g, sb, m, s, es)
    ensures RecoversTo(g, sb, r.disk, t.groups[|t.groups| - 1])
  {
    EveryRunIsCrashSafe(g, sb, m, s, es);
    LastGroupRecovers(g, sb, r, t);
  }

  // ------------------------------------------------------------------ the operations of fs.c

  /** Between operations, and for the state an operation leaves, the blocks of a file system are in order. */
  lemma ValidIsGood(fs: FileSystem)
    requires fs.Valid()
    ensures Good(fs.vol.sb, fs.vol.blocks)
  {
    assert HoldsState(fs.vol.sb, fs.vol.blocks, fs.Whole());
  }

  /** The blocks of `to` put over those of `from`, for the numbers in `logged`. */
  ghost predicate Replaced(from: seq<Block>, to: seq<Block>, logged: set<nat>, r: seq<Block>) {
    && |from| == |to| == |r|
    && forall b | 0 <= b < |r| :: r[b] == if b in logged then to[b] else from[b]
  }

  lemma UpdateReplaced(from: seq<Block>, to: seq<Block>, logged: set<nat>, b: nat, r: seq<Block>)
    requires b in logged && b < |from| == |to|
    requires Replaced(from[b := to[b]], to, logged - {b}, r)
    ensures Replaced(from, to, logged, r)
  {
  }

  lemma UpdatesCons(u: Put, vs: seq<Put>)
    ensures Updates([u] + vs)[0] == L.Update(u.b, u.data) && Updates([u] + vs)[1..] == Updates(vs)
  {
  }

  /** Logging each changed block once brings the view to the blocks the operation leaves. */
  lemma {:induction false} PutAll(g: L.Geometry, m: L.Machine, to: seq<Block>, logged: set<nat>)
      returns (us: seq<Put>, r: L.Machine)
    requires L.MachineOk(g, m) && m.Up? && |to| == g.nblocks && forall b | b in logged :: g.IsHome(b)
    requires |m.lh| + |logged| <= LOGSIZE && |m.lh| + |logged| < g.size
    ensures L.RunOk(g, m, Updates(us)) && r == L.Run(g, m, Updates(us))
    ensures r.Up? && r.disk == m.disk && Replaced(m.view, to, logged, r.view) && |r.lh| <= |m.lh| + |logged|
    decreases |logged|
  {
    if logged == {} {
      us, r := [], m;
    } else {
      var b :| b in logged;
      var e := L.Update(b, to[b]);
      L.StepOk(g, m, e);
      var next := L.Step(g, m, e);
      var vs;
      vs, r := PutAll(g, next, to, logged - {b});
      us := [Put(b, to[b])] + vs;
      UpdatesCons(Put(b, to[b]), vs);
      UpdateReplaced(m.view, to, logged, b, r.view);
    }
  }

  /**
   An operation of fs.c, from `begin_op` on the blocks of the view to its end, with everything it changed logged and
   within the share that `begin_op` has reserved, is an event of the runs above.
   */
  lemma OperationIsEvent(g: L.Geometry, sb: Super, m: L.Machine, to: seq<Block>, logged: set<nat>)
      returns (us: seq<Put>)
    requires Placed(g, sb) && L.MachineOk(g, m) && m.Up? && |m.lh| + MAXOPBLOCKS <= LOGSIZE < g.size
    requires AllLogged(sb, m.view, to, logged) && |logged| <= MAXOPBLOCKS && Good(sb, to)
    ensures EventOk(g, sb, m, Op(us))
    ensures var r := L.Run(g, m, Updates(us)); r.Up? && r.view == to && r.disk == m.disk
  {
    var r;
    us, r := PutAll(g, m, to, logged);
    assert r.view == to;
  }

  /** The operation is the event `Op(us)`, and the view then shows the blocks `to`. */
  ghost predicate Lands(g: L.Geometry, sb: Super, m: L.Machine, us: seq<Put>, to: seq<Block>)
    requires L.MachineOk(g, m)
  {
    && EventOk(g, sb, m, Op(us))
    && var r := L.Run(g, m, Updates(us)); r.Up? && r.view == to && r.disk == m.disk
  }

  /** The log gives these blocks as its view, and has the share of one operation left. */
  ghost predicate Admits(g: L.Geometry, sb: Super, m: L.Machine, blocks: seq<Block>) {
    Placed(g, sb) && L.MachineOk(g, m) && m.Up? && m.view == blocks && |m.lh| + MAXOPBLOCKS <= LOGSIZE < g.size
  }

  /** An operation between begin_op and end_op, at its end. */
  lemma OperationLands(fs: FileSystem, g: L.Geometry, m: L.Machine) returns (us: seq<Put>)
    requires fs.Valid() && Admits(g, fs.vol.sb, m, fs.vol.start) && |fs.vol.logged| <= MAXOPBLOCKS
    ensures Lands(g, fs.vol.sb, m, us, fs.vol.blocks)
  {
    ValidIsGood(fs);
    us := OperationIsEvent(g, fs.vol.sb, m, fs.vol.blocks, fs.vol.logged);
  }

  /** `begin_op`. */
  method Begin(fs: FileSystem)
    requires fs.Valid()
    modifies fs.vol`logged, fs.vol`start
    ensures fs.Valid() && fs.Whole() == old(fs.Whole()) && fs.vol.logged == {} && fs.vol.start == fs.vol.blocks
  {
    fs.vol.BeginOp();
    FilesOkSame(old(fs.Whole()), fs.Whole());
  }

  /** A chunk of `filewrite`, run on the view that the log gives, is such an operation. */
  method WriteChunk(fs: FileSystem, i: nat, off: nat, src: seq<byte>, ghost g: L.Geometry, ghost m: L.Machine)
      returns (r: Outcome, ghost us: seq<Put>)
    requires fs.Valid() && i in fs.mem && off < UINT && |src| <= File.MAXCHUNK
    requires Admits(g, fs.vol.sb, m, fs.vol.blocks)
    modifies fs`mem, fs`owner, fs.vol`blocks, fs.vol`bits, fs.vol`inodes, fs.vol`data, fs.vol`logged, fs.vol`start
    ensures r.Failed? <==> off > old(fs.mem[i]).size || off + |src| >= UINT || off + |src| > MAXSIZE
    ensures r.Done? ==> fs.Valid() && WriteDone(old(fs.Whole()), fs.Whole(), i, off, src)
    ensures !r.Panic? ==> Lands(g, fs.vol.sb, m, us, fs.vol.blocks)
  {
    us := [];
    r := File.WriteChunk(fs, i, off, src);
    if !r.Panic? {
      us := OperationLands(fs, g, m);
    }
  }

  /** So is an operation that links a name, */
  method Dirlink(fs: FileSystem, dp: nat, name: seq<byte>, inum: nat, ghost g: L.Geometry, ghost m: L.Machine)
      returns (r: Directory.Linked, ghost us: seq<Put>)
    requires fs.Valid() && dp in fs.mem && Admits(g, fs.vol.sb, m, fs.vol.blocks)
    modifies fs`mem, fs`owner, fs.vol`blocks, fs.vol`bits, fs.vol`inodes, fs.vol`data, fs.vol`logged, fs.vol`start
    ensures r.LinkPanic? <==> Directory.CannotLink(old(fs.Whole()), dp, Directory.Key(name))
    ensures r.LinkedAt? ==> fs.Valid() && Directory.Links(old(fs.Whole()), fs.Whole(), dp, name, inum, r.k)
    ensures !r.LinkPanic? ==> Lands(g, fs.vol.sb, m, us, fs.vol.blocks)
  {
    us := [];
    Begin(fs);
    r := Directory.Dirlink(fs, dp, name, inum);
    if !r.LinkPanic? {
      us := OperationLands(fs, g, m);
    }
  }

  /** one that allocates an inode, */
  method Ialloc(fs: FileSystem, kind: nat, ghost g: L.Geometry, ghost m: L.Machine) returns (r: Option, ghost us: seq<Put>)
    requires fs.Valid() && 0 < kind < 65536 && Admits(g, fs.vol.sb, m, fs.vol.blocks)
    modifies fs.vol`blocks, fs.vol`inodes, fs.vol`logged, fs.vol`start
    ensures r.None? <==> forall j | 1 <= j < fs.vol.sb.ninodes :: old(fs.vol.inodes)[j].kind != 0
    ensures fs.Valid() && Lands(g, fs.vol.sb, m, us, fs.vol.blocks)
  {
    Begin(fs);
    r := fs.Ialloc(kind);
    us := OperationLands(fs, g, m);
  }

  /**
   and one that drops an inode, and frees it with its blocks if that was the last reference: on every disk on which
   fewer than MAXOPBLOCKS bitmap blocks have bits of data blocks. On any other it may log more than its share.
   */
  method Iput(fs: FileSystem, i: nat, ref: nat, ghost g: L.Geometry, ghost m: L.Machine) returns (ghost us: seq<Put>)
    requires fs.Valid() && i in fs.mem && Admits(g, fs.vol.sb, m, fs.vol.blocks) && DataMaps(fs.vol.sb) < MAXOPBLOCKS
    modifies fs`mem, fs`owner, fs`cached, fs.vol`blocks, fs.vol`bits, fs.vol`inodes, fs.vol`logged, fs.vol`start
    ensures fs.Valid() && Lands(g, fs.vol.sb, m, us, fs.vol.blocks)
    ensures old(fs.mem[i]).nlink == 0 && ref == 1 ==> fs.mem == old(fs.mem) - {i} && fs.vol.inodes[i].kind == 0
  {
    Begin(fs);
    TruncLogBound(fs.Whole(), i);
    fs.Iput(i, ref);
    us := OperationLands(fs, g, m);
  }

  // ------------------------------------------------------------------ booting after a power failure

  /** The tables are the ones read off the blocks. */
  lemma TablesAre(sb: Super, blocks: seq<Block>, x: State)
    requires HoldsState(sb, blocks, x)
    ensures x.bits == BitsOf(sb, blocks) && x.inodes == InodesOf(sb, blocks)
  {
    forall b: nat | b < sb.size
      ensures x.bits[b] == BitsOf(sb, blocks)[b]
    {
      assert BitHolds(sb, blocks, x.bits, b);
    }
    forall i: nat | i < sb.ninodes
      ensures x.inodes[i] == InodesOf(sb, blocks)[i]
    {
      assert InodeHolds(sb, blocks, x.inodes, i);
    }
  }

  /** Files have no part before the data blocks. */
  lemma FilesInData(x: State, data: seq<Block>)
    requires FilesOk(x) && |data| == x.sb.size && forall b | DataStart(x.sb) <= b < x.sb.size :: data[b] == x.data[b]
    ensures FilesOk(x.(data := data))
  {
    var y := x.(data := data);
    forall i: nat, k: nat | i < |x.inodes| && k <= MAXFILE
      ensures Slot(y.inodes[i], data, k) == Slot(x.inodes[i], x.data, k)
    {
      assert SlotOk(x, i, MAXFILE);
    }
    assert forall i: nat, k: nat | i < |x.inodes| && k <= MAXFILE :: SlotOk(x, i, k) ==> SlotOk(y, i, k);
    forall b | b in x.owner
      ensures OwnerOk(y, b)
    {
      var (i, k) := x.owner[b];
      assert OwnerOk(x, b) && Slot(y.inodes[i], data, k) == Slot(x.inodes[i], x.data, k);
    }
    assert forall i | 0 <= i < |x.inodes| :: Shape(x.inodes[i], x.data) ==> Shape(y.inodes[i], data);
  }

  /**
   Boot on a disk that recovers to a file system in order, as every run leaves it: recovery, and the empty inode cache
   of `iinit`, which reads nothing that recovery writes. Operations can start at once, and the runs above can start there.
   */
  method Boot(g: L.Geometry, sb: Super, disk: seq<Block>) returns (log: L.RedoLog, fs: FileSystem)
    requires Placed(g, sb) && L.GoodDisk(g, disk) && Good(sb, L.Recovered(g, disk))
    ensures fs.Valid() && fs.vol.sb == sb && fs.mem == map[] && fs.vol.blocks == L.Recovered(g, disk)
    ensures log.Valid() && log.g == g && L.MachineOk(g, log.State()) && log.State().view == fs.vol.blocks
    ensures var r := L.Recovered(g, disk);
            log.List() == [] && L.Implements(g, log.State(), L.Spec([r], r)) && GroupsGood(sb, L.Spec([r], r))
  {
    log := new L.RedoLog.Boot(g, disk);
    ghost var x: State :| HoldsState(sb, log.view, x);
    TablesAre(sb, log.view, x);
    var vol := new Volume(sb, log.view);
    FilesInData(x, vol.data);
    assert State(sb, vol.inodes, vol.bits, vol.data, x.owner) == x.(data := vol.data);
    fs := new FileSystem(vol, x.owner);
  }
}
