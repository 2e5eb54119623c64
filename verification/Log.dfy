/** The physical redo log of log.c: group commit and crash recovery. */
module Log {
  import opened Common
  import opened Blocks

  // The disk is a sequence of blocks and every `bwrite` is one atomic block write. log.c reads
  // the header block as 32-bit words (`n` followed by `block[LOGSIZE]`). Power may fail between any two writes,
  // so the disk states a crash can leave behind are the prefixes of the write sequences that `commit` and
  // `recover_from_log` issue. The class `RedoLog` is the code; its ghost field `writes` records the block writes issued,
  // and its methods are proved to issue exactly the sequences that the crash theorems are about.

  type Disk = seq<Block>

  datatype Write = Write(addr: nat, data: Block)

  /** Where the log lies on a disk of `nblocks` blocks: the header at `start`, log blocks after it. */
  datatype Geometry = Geometry(start: nat, size: nat, nblocks: nat) {
    ghost predicate Valid() {
      1 <= size && start + size <= nblocks <= UINT
    }

    predicate IsHome(b: nat) {
      b < nblocks && !(start <= b < start + size)
    }
  }

  // ------------------------------------------------------------------ disk writes

  ghost predicate WritesFit(d: Disk, ws: seq<Write>) {
    forall i | 0 <= i < |ws| :: ws[i].addr < |d|
  }

  /** The disk once the first k writes of `ws` have landed. */
  ghost function After(d: Disk, ws: seq<Write>, k: nat): (r: Disk)
    requires WritesFit(d, ws) && k <= |ws|
    ensures |r| == |d|
  {
    if k == 0 then d else After(d, ws, k - 1)[ws[k - 1].addr := ws[k - 1].data]
  }

  /** Two disks with the same home blocks. */
  ghost predicate SameHome(g: Geometry, d: Disk, e: Disk) {
    |d| == |e| == g.nblocks && forall b: nat {:trigger d[b]} {:trigger e[b]} | g.IsHome(b) :: d[b] == e[b]
  }

  // ------------------------------------------------------------------ the header block

  /** What the header of 32-bit words can hold. */
  ghost predicate Listable(lh: seq<nat>) {
    |lh| <= LOGSIZE && forall i | 0 <= i < |lh| :: lh[i] < UINT
  }

  /** `write_head` stores n and the first n entries; the other words of the block keep what they held. */
  function HeadBlock(b: Block, lh: seq<nat>): (r: Block)
    requires Listable(lh) && |b| == BSIZE
    ensures |r| == BSIZE
  {
    PutWords(b, 0, [|lh|] + lh, 1 + |lh|)
  }

  ghost predicate HeadFits(b: Block) {
    |b| == BSIZE && Word(b, 0) <= LOGSIZE
  }

  ghost function HeadOf(b: Block): (lh: seq<nat>)
    requires HeadFits(b)
    ensures Listable(lh) && |lh| == Word(b, 0)
  {
    seq(Word(b, 0), i requires 0 <= i < Word(b, 0) => Word(b, 1 + i))
  }

  lemma HeadWord(b: Block, lh: seq<nat>, i: nat)
    requires Listable(lh) && |b| == BSIZE && i <= |lh|
    ensures Word(HeadBlock(b, lh), i) == if i == 0 then |lh| else lh[i - 1]
  {
    var w := [|lh|] + lh;
    PutWordsWord(b, 0, w, |w|, i);
  }

  lemma HeadRoundTrip(b: Block, lh: seq<nat>)
    requires Listable(lh) && |b| == BSIZE
    ensures HeadFits(HeadBlock(b, lh))
    ensures HeadOf(HeadBlock(b, lh)) == lh
    ensures Word(HeadBlock(b, lh), 0) == |lh| && forall i | 0 <= i < |lh| :: Word(HeadBlock(b, lh), 1 + i) == lh[i]
  {
    var r := HeadBlock(b, lh);
    HeadWord(b, lh, 0);
    forall i | 0 <= i < |lh|
      ensures Word(r, 1 + i) == lh[i]
    {
      HeadWord(b, lh, 1 + i);
    }
  }

  /** A list of block numbers that fits the log and names distinct home blocks. */
  ghost predicate GoodList(g: Geometry, lh: seq<nat>) {
    && g.Valid()
    && Listable(lh)
    && |lh| < g.size
    && Distinct(lh)
    && forall i | 0 <= i < |lh| :: g.IsHome(lh[i])
  }

  /** A disk that recovery can be started on. */
  ghost predicate GoodDisk(g: Geometry, d: Disk) {
    && g.Valid()
    && |d| == g.nblocks
    && HeadFits(d[g.start])
    && GoodList(g, HeadOf(d[g.start]))
  }

  // ------------------------------------------------------------------ the writes of a commit

  /** No log on disk, and the view differs from the disk only on the listed blocks. */
  ghost predicate CommitReady(g: Geometry, d: Disk, view: Disk, lh: seq<nat>) {
    && GoodList(g, lh)
    && |d| == |view| == g.nblocks
    && HeadFits(d[g.start])
    && Word(d[g.start], 0) == 0
    && forall b: nat {:trigger view[b]} {:trigger d[b]} | b < g.nblocks && b !in lh :: view[b] == d[b]
  }

  /** The i-th block write of `commit`: log blocks, the full header, home blocks, the cleared header. */
  ghost function CommitWrite(g: Geometry, full: Block, clear: Block, view: Disk, lh: seq<nat>, i: nat): (w: Write)
    requires GoodList(g, lh) && |view| == g.nblocks && i < 2 * |lh| + 2
  {
    var n := |lh|;
    if i < n then Write(g.start + 1 + i, view[lh[i]])
    else if i == n then Write(g.start, full)
    else if i <= 2 * n then Write(lh[i - n - 1], view[lh[i - n - 1]])
    else Write(g.start, clear)
  }

  /** The header block at the end of a commit. */
  ghost function Cleared(head: Block, lh: seq<nat>): (r: Block)
    requires Listable(lh) && |head| == BSIZE
    ensures |r| == BSIZE
  {
    HeadBlock(HeadBlock(head, lh), [])
  }

  /** Everything `commit` writes, in order. */
  ghost function CommitWrites(g: Geometry, head: Block, view: Disk, lh: seq<nat>): (ws: seq<Write>)
    requires GoodList(g, lh) && |view| == g.nblocks && |head| == BSIZE
    ensures WritesFit(view, ws)
    ensures |ws| == if lh == [] then 0 else 2 * |lh| + 2
  {
    var full, clear := HeadBlock(head, lh), Cleared(head, lh);
    if lh == [] then []
    else seq(2 * |lh| + 2, i requires 0 <= i < 2 * |lh| + 2 => CommitWrite(g, full, clear, view, lh, i))
  }

  /** The disk after the first k writes of a commit, block by block. */
  ghost predicate CommitShape(g: Geometry, d: Disk, full: Block, clear: Block, view: Disk, lh: seq<nat>, k: nat, r: Disk)
    requires GoodList(g, lh) && |d| == |view| == g.nblocks
  {
    var n := |lh|;
    && |r| == g.nblocks
    && r[g.start] == (if k <= n then d[g.start] else if k <= 2 * n + 1 then full else clear)
    && (forall i {:trigger lh[i]} | 0 <= i < n ::
          && r[g.start + 1 + i] == (if i < k then view[lh[i]] else d[g.start + 1 + i])
          && r[lh[i]] == (if n + 1 + i < k then view[lh[i]] else d[lh[i]]))
    && (forall b: nat {:trigger r[b]} | b < g.nblocks && b !in lh && !(g.start <= b <= g.start + n) :: r[b] == d[b])
  }

  lemma {:induction false} CommitReachesBy(g: Geometry, d: Disk, full: Block, clear: Block, view: Disk, lh: seq<nat>,
                                           ws: seq<Write>, k: nat, r: Disk)
    requires GoodList(g, lh) && |d| == |view| == g.nblocks
    requires WritesFit(d, ws) && k <= |ws| <= 2 * |lh| + 2 && r == After(d, ws, k)
    requires forall i {:trigger ws[i]} | 0 <= i < |ws| :: ws[i] == CommitWrite(g, full, clear, view, lh, i)
    ensures CommitShape(g, d, full, clear, view, lh, k, r)
    decreases k
  {
    if k > 0 {
      var p := After(d, ws, k - 1);
      CommitReachesBy(g, d, full, clear, view, lh, ws, k - 1, p);
      CommitShapeStep(g, d, full, clear, view, lh, k - 1, p, ws[k - 1], r);
    }
  }

  lemma CommitReaches(g: Geometry, d: Disk, view: Disk, lh: seq<nat>, k: nat, r: Disk)
    requires GoodList(g, lh) && |d| == |view| == g.nblocks && |d[g.start]| == BSIZE
    requires lh != [] && k <= 2 * |lh| + 2 && r == After(d, CommitWrites(g, d[g.start], view, lh), k)
    ensures CommitShape(g, d, HeadBlock(d[g.start], lh), Cleared(d[g.start], lh), view, lh, k, r)
  {
    var full, clear := HeadBlock(d[g.start], lh), Cleared(d[g.start], lh);
    CommitReachesBy(g, d, full, clear, view, lh, CommitWrites(g, d[g.start], view, lh), k, r);
  }

  lemma CommitShapeStep(g: Geometry, d: Disk, full: Block, clear: Block, view: Disk, lh: seq<nat>, k: nat, r: Disk,
                        w: Write, s: Disk)
    requires GoodList(g, lh) && |d| == |view| == |r| == g.nblocks
    requires k < 2 * |lh| + 2 && CommitShape(g, d, full, clear, view, lh, k, r)
    requires w == CommitWrite(g, full, clear, view, lh, k) && w.addr < |r| && s == r[w.addr := w.data]
    ensures CommitShape(g, d, full, clear, view, lh, k + 1, s)
  {
    if |lh| < k <= 2 * |lh| {
      HomeWritten(g, d, full, clear, view, lh, k, r, s);
    } else {
      LogWritten(g, d, full, clear, view, lh, k, r, w, s);
    }
  }

  lemma LogWritten(g: Geometry, d: Disk, full: Block, clear: Block, view: Disk, lh: seq<nat>, k: nat, r: Disk,
                   w: Write, s: Disk)
    requires GoodList(g, lh) && |d| == |view| == |r| == g.nblocks
    requires (k <= |lh| || k == 2 * |lh| + 1) && CommitShape(g, d, full, clear, view, lh, k, r)
    requires w == if k < |lh| then Write(g.start + 1 + k, view[lh[k]]) else Write(g.start, if k == |lh| then full else clear)
    requires s == r[w.addr := w.data]
    ensures CommitShape(g, d, full, clear, view, lh, k + 1, s)
  {
    assert forall i {:trigger lh[i]} | 0 <= i < |lh| :: g.IsHome(lh[i]);
  }

  lemma HomeWritten(g: Geometry, d: Disk, full: Block, clear: Block, view: Disk, lh: seq<nat>, k: nat, r: Disk, s: Disk)
    requires GoodList(g, lh) && |d| == |view| == |r| == g.nblocks
    requires |lh| < k <= 2 * |lh| && CommitShape(g, d, full, clear, view, lh, k, r)
    requires var h := lh[k - |lh| - 1]; g.IsHome(h) && s == r[h := view[h]]
    ensures CommitShape(g, d, full, clear, view, lh, k + 1, s)
  {
    var n, j := |lh|, k - |lh| - 1;
    forall i {:trigger lh[i]} | 0 <= i < n
      ensures s[g.start + 1 + i] == view[lh[i]]
      ensures s[lh[i]] == if n + 1 + i < k + 1 then view[lh[i]] else d[lh[i]]
    {
      assert g.IsHome(lh[i]) && (lh[i] == lh[j] ==> i == j);
    }
  }

  /** The shape fixes every block. */
  lemma CommitShapeUnique(g: Geometry, d: Disk, full: Block, clear: Block, view: Disk, lh: seq<nat>, k: nat, r: Disk,
                          s: Disk)
    requires GoodList(g, lh) && |d| == |view| == g.nblocks
    requires CommitShape(g, d, full, clear, view, lh, k, r) && CommitShape(g, d, full, clear, view, lh, k, s)
    ensures r == s
  {
    forall b | 0 <= b < g.nblocks
      ensures r[b] == s[b]
    {
      if b in lh {
        var i :| 0 <= i < |lh| && lh[i] == b;
      } else if g.start < b <= g.start + |lh| {
        var i := b - g.start - 1;
        assert r[g.start + 1 + i] == s[g.start + 1 + i] by { var x := lh[i]; }
      }
    }
  }

  // ------------------------------------------------------------------ the writes of a recovery

  /** `install_trans` from the log blocks of `d`. */
  ghost function InstallWrites(g: Geometry, d: Disk, lh: seq<nat>): (ws: seq<Write>)
    requires GoodList(g, lh) && |d| == g.nblocks
    ensures WritesFit(d, ws) && |ws| == |lh|
  {
    seq(|lh|, i requires 0 <= i < |lh| => Write(lh[i], d[g.start + 1 + i]))
  }

  /** Everything `recover_from_log` writes, in order. */
  ghost function RecoverWrites(g: Geometry, d: Disk): (ws: seq<Write>)
    requires GoodDisk(g, d)
    ensures WritesFit(d, ws) && |ws| == |HeadOf(d[g.start])| + 1
  {
    InstallWrites(g, d, HeadOf(d[g.start])) + [Write(g.start, HeadBlock(d[g.start], []))]
  }

  /** The disk after k install writes: the first k listed homes are copies of their log blocks. */
  ghost predicate InstallShape(g: Geometry, d: Disk, lh: seq<nat>, k: nat, r: Disk)
    requires GoodList(g, lh) && |d| == g.nblocks
  {
    && |r| == g.nblocks
    && (forall i {:trigger lh[i]} | 0 <= i < |lh| :: r[lh[i]] == if i < k then d[g.start + 1 + i] else d[lh[i]])
    && (forall b: nat {:trigger r[b]} | b < g.nblocks && b !in lh && b != g.start :: r[b] == d[b])
  }

  lemma InstallShapeStep(g: Geometry, d: Disk, lh: seq<nat>, k: nat, r: Disk, s: Disk)
    requires GoodList(g, lh) && |d| == |r| == g.nblocks && k < |lh| && InstallShape(g, d, lh, k, r)
    requires s == r[lh[k] := d[g.start + 1 + k]]
    ensures InstallShape(g, d, lh, k + 1, s) && s[g.start] == r[g.start]
  {
    assert g.IsHome(lh[k]);
    assert forall i {:trigger lh[i]} | 0 <= i < |lh| :: lh[i] == lh[k] ==> i == k;
  }

  lemma {:induction false} InstallReaches(g: Geometry, d: Disk, lh: seq<nat>, ws: seq<Write>, k: nat, r: Disk)
    requires GoodList(g, lh) && |d| == g.nblocks && WritesFit(d, ws) && k <= |lh| <= |ws| && r == After(d, ws, k)
    requires forall i {:trigger ws[i]} | 0 <= i < |lh| :: ws[i] == Write(lh[i], d[g.start + 1 + i])
    ensures InstallShape(g, d, lh, k, r)
    ensures r[g.start] == d[g.start]
    decreases k
  {
    if k > 0 {
      var p := After(d, ws, k - 1);
      InstallReaches(g, d, lh, ws, k - 1, p);
      InstallShapeStep(g, d, lh, k - 1, p, r);
    }
  }

  lemma RecoveryReaches(g: Geometry, d: Disk, k: nat, r: Disk)
    requires GoodDisk(g, d) && k <= |HeadOf(d[g.start])| && r == After(d, RecoverWrites(g, d), k)
    ensures InstallShape(g, d, HeadOf(d[g.start]), k, r)
    ensures r[g.start] == d[g.start]
  {
    InstallReaches(g, d, HeadOf(d[g.start]), RecoverWrites(g, d), k, r);
  }

  lemma InstallShapeHead(g: Geometry, d: Disk, lh: seq<nat>, r: Disk, s: Disk)
    requires GoodList(g, lh) && |d| == |r| == g.nblocks && InstallShape(g, d, lh, |lh|, r)
    requires |s| == |r| && s == r[g.start := s[g.start]]
    ensures InstallShape(g, d, lh, |lh|, s)
  {
    assert forall i {:trigger lh[i]} | 0 <= i < |lh| :: g.IsHome(lh[i]);
  }

  /** The disk that running recovery on `d` to the end leaves behind. */
  ghost function Recovered(g: Geometry, d: Disk): (r: Disk)
    requires GoodDisk(g, d)
    ensures |r| == g.nblocks
  {
    After(d, RecoverWrites(g, d), |RecoverWrites(g, d)|)
  }

  /** Recovery copies the listed log blocks home, leaves the other homes, and empties the log. */
  lemma RecoveredIs(g: Geometry, d: Disk)
    requires GoodDisk(g, d)
    ensures var lh, r := HeadOf(d[g.start]), Recovered(g, d);
            && CommitReady(g, r, r, [])
            && InstallShape(g, d, lh, |lh|, r)
  {
    var lh, ws := HeadOf(d[g.start]), RecoverWrites(g, d);
    var r := After(d, ws, |lh|);
    RecoveryReaches(g, d, |lh|, r);
    assert ws[|lh|] == Write(g.start, HeadBlock(d[g.start], []));
    HeadRoundTrip(d[g.start], []);
    assert Recovered(g, d) == r[g.start := HeadBlock(d[g.start], [])];
    InstallShapeHead(g, d, lh, r, Recovered(g, d));
  }

  lemma InstallShapeUnique(g: Geometry, d: Disk, lh: seq<nat>, r: Disk, s: Disk)
    requires GoodList(g, lh) && |d| == g.nblocks
    requires InstallShape(g, d, lh, |lh|, r) && InstallShape(g, d, lh, |lh|, s)
    requires r[g.start] == s[g.start]
    ensures r == s
  {
    forall b | 0 <= b < g.nblocks
      ensures r[b] == s[b]
    {
      if b in lh {
        var i :| 0 <= i < |lh| && lh[i] == b;
      }
    }
  }

  /** Disks with the same header list and log blocks, and equal homes off the list, recover alike. */
  lemma RecoveredAgree(g: Geometry, d: Disk, e: Disk)
    requires GoodDisk(g, d) && GoodDisk(g, e)
    requires HeadOf(d[g.start]) == HeadOf(e[g.start])
    requires forall i {:trigger HeadOf(d[g.start])[i]} | 0 <= i < |HeadOf(d[g.start])| ::
               d[g.start + 1 + i] == e[g.start + 1 + i]
    requires forall b: nat {:trigger e[b]} | g.IsHome(b) && b !in HeadOf(d[g.start]) :: d[b] == e[b]
    ensures SameHome(g, Recovered(g, d), Recovered(g, e))
  {
    RecoveredIs(g, d);
    RecoveredIs(g, e);
    var lh, rd, re := HeadOf(d[g.start]), Recovered(g, d), Recovered(g, e);
    forall b: nat | g.IsHome(b)
      ensures rd[b] == re[b]
    {
      if b in lh {
        var i :| 0 <= i < |lh| && lh[i] == b;
        assert rd[b] == d[g.start + 1 + i] && re[b] == e[g.start + 1 + i];
      }
    }
  }

  lemma EmptyHead(g: Geometry, d: Disk)
    requires g.Valid() && |d| == g.nblocks && HeadFits(d[g.start]) && Word(d[g.start], 0) == 0
    ensures GoodDisk(g, d)
    ensures SameHome(g, Recovered(g, d), d)
  {
    assert HeadOf(d[g.start]) == [];
    RecoveredIs(g, d);
  }

  // ------------------------------------------------------------------ crash atomicity

  /** Before the header write lands, the disk recovers to the old home state. */
  lemma ShapeBeforeHeader(g: Geometry, d: Disk, full: Block, clear: Block, view: Disk, lh: seq<nat>, k: nat, r: Disk)
    requires CommitReady(g, d, view, lh) && k <= |lh| && CommitShape(g, d, full, clear, view, lh, k, r)
    ensures GoodDisk(g, r) && SameHome(g, Recovered(g, r), d)
  {
    EmptyHead(g, r);
    forall b: nat | g.IsHome(b)
      ensures r[b] == d[b]
    {
      if b in lh {
        var i :| 0 <= i < |lh| && lh[i] == b;
      }
    }
  }

  /** Once it has landed, the disk recovers to the view, however many homes are installed. */
  lemma ShapeAfterHeader(g: Geometry, d: Disk, full: Block, clear: Block, view: Disk, lh: seq<nat>, k: nat, r: Disk)
    requires CommitReady(g, d, view, lh) && |lh| < k <= 2 * |lh| + 1
    requires CommitShape(g, d, full, clear, view, lh, k, r) && HeadFits(full) && HeadOf(full) == lh
    ensures GoodDisk(g, r) && SameHome(g, Recovered(g, r), view)
  {
    RecoveredIs(g, r);
    var s := Recovered(g, r);
    forall b: nat | g.IsHome(b)
      ensures s[b] == view[b]
    {
      if b in lh {
        var i :| 0 <= i < |lh| && lh[i] == b;
        assert s[lh[i]] == r[g.start + 1 + i];
      } else {
        assert s[b] == r[b];
      }
    }
  }

  /** A commit that runs to its end leaves an empty log and the view installed. */
  lemma ShapeAtEnd(g: Geometry, d: Disk, full: Block, clear: Block, view: Disk, lh: seq<nat>, r: Disk)
    requires CommitReady(g, d, view, lh) && CommitShape(g, d, full, clear, view, lh, 2 * |lh| + 2, r)
    requires HeadFits(clear) && Word(clear, 0) == 0
    ensures GoodDisk(g, r) && HeadFits(r[g.start]) && Word(r[g.start], 0) == 0
    ensures SameHome(g, r, view) && SameHome(g, Recovered(g, r), view)
  {
    EmptyHead(g, r);
    forall b: nat | g.IsHome(b)
      ensures r[b] == view[b]
    {
      if b in lh {
        var i :| 0 <= i < |lh| && lh[i] == b;
      }
    }
  }

  lemma ClearedIsEmpty(head: Block, lh: seq<nat>)
    requires Listable(lh) && |head| == BSIZE
    ensures HeadFits(Cleared(head, lh)) && Word(Cleared(head, lh), 0) == 0
  {
    HeadRoundTrip(HeadBlock(head, lh), []);
  }

  /**
   Crash atomicity of a commit: whichever of its writes is the last to reach the disk, recovery yields either
   the old home state or the whole new one, and it yields the new one exactly when the header write landed.
   */
  lemma CommitIsAtomic(g: Geometry, d: Disk, view: Disk, lh: seq<nat>, k: nat)
    requires CommitReady(g, d, view, lh)
    requires k <= |CommitWrites(g, d[g.start], view, lh)|
    ensures var r := After(d, CommitWrites(g, d[g.start], view, lh), k);
            GoodDisk(g, r) && SameHome(g, Recovered(g, r), if k > |lh| then view else d)
  {
    if lh == [] {
      EmptyHead(g, d);
    } else {
      var full, clear := HeadBlock(d[g.start], lh), Cleared(d[g.start], lh);
      var r := After(d, CommitWrites(g, d[g.start], view, lh), k);
      CommitReaches(g, d, view, lh, k, r);
      if k <= |lh| {
        ShapeBeforeHeader(g, d, full, clear, view, lh, k, r);
      } else if k <= 2 * |lh| + 1 {
        HeadRoundTrip(d[g.start], lh);
        ShapeAfterHeader(g, d, full, clear, view, lh, k, r);
      } else {
        ClearedIsEmpty(d[g.start], lh);
        ShapeAtEnd(g, d, full, clear, view, lh, r);
      }
    }
  }

  lemma CommitLeaves(g: Geometry, d: Disk, view: Disk, lh: seq<nat>)
    requires CommitReady(g, d, view, lh)
    ensures var ws := CommitWrites(g, d[g.start], view, lh);
            var r := After(d, ws, |ws|);
            SameHome(g, r, view) && CommitReady(g, r, r, [])
  {
    if lh != [] {
      var r := After(d, CommitWrites(g, d[g.start], view, lh), 2 * |lh| + 2);
      CommitReaches(g, d, view, lh, 2 * |lh| + 2, r);
      ClearedIsEmpty(d[g.start], lh);
      ShapeAtEnd(g, d, HeadBlock(d[g.start], lh), Cleared(d[g.start], lh), view, lh, r);
    }
  }

  /** Recovery may itself be cut short after any write: running it again gives the same home state. */
  lemma RecoveryIsIdempotent(g: Geometry, d: Disk, k: nat)
    requires GoodDisk(g, d)
    requires k <= |RecoverWrites(g, d)|
    ensures var r := After(d, RecoverWrites(g, d), k);
            GoodDisk(g, r) && SameHome(g, Recovered(g, r), Recovered(g, d))
  {
    var r := After(d, RecoverWrites(g, d), k);
    if k <= |HeadOf(d[g.start])| {
      RecoveryReaches(g, d, k, r);
      RecoveredAgree(g, d, r);
    } else {
      RecoveredIs(g, d);
      EmptyHead(g, r);
    }
  }

  // ------------------------------------------------------------------ whole runs

  /**
   The machine: running with a view of the blocks (what `bread` returns) and an in-memory block list, or
   powered off with only the disk.
   */
  datatype Machine = Up(disk: Disk, view: Disk, lh: seq<nat>) | Down(disk: Disk)

  /** `Update` is a change to a buffer followed by `log_write`; the crash events say how many writes landed. */
  datatype Event =
    | Update(b: nat, data: Block)
    | Commit
    | CrashInCommit(landed: nat)
    | CrashInRecovery(landed: nat)
    | Recover

  ghost predicate MachineOk(g: Geometry, m: Machine) {
    match m
    case Up(d, view, lh) => CommitReady(g, d, view, lh)
    case Down(d) => GoodDisk(g, d)
  }

  /** `log_write`: append the block number unless it is already listed. */
  ghost function Absorb(lh: seq<nat>, b: nat): (r: seq<nat>) {
    if b in lh then lh else lh + [b]
  }

  /** The writes that the power failure may cut. */
  ghost function Pending(g: Geometry, m: Machine): (ws: seq<Write>)
    requires MachineOk(g, m)
    ensures WritesFit(m.disk, ws)
  {
    if m.Up? then CommitWrites(g, m.disk[g.start], m.view, m.lh) else RecoverWrites(g, m.disk)
  }

  /**
   The events that can happen. `Update` is the append of `log_write`: the list with the block still fits the
   log. The guard was read earlier, before other appends; LogAdmission shows when it makes the list fit.
   */
  ghost predicate Enabled(g: Geometry, m: Machine, e: Event)
    requires MachineOk(g, m)
  {
    match e
    case Update(b, _) => m.Up? && g.IsHome(b) && |Absorb(m.lh, b)| <= LOGSIZE && |Absorb(m.lh, b)| < g.size
    case Commit => m.Up?
    case CrashInCommit(k) => m.Up? && k <= |Pending(g, m)|
    case CrashInRecovery(k) => m.Down? && k <= |Pending(g, m)|
    case Recover => m.Down?
  }

  ghost function Step(g: Geometry, m: Machine, e: Event): (r: Machine)
    requires MachineOk(g, m) && Enabled(g, m, e)
  {
    var ws := Pending(g, m);
    match e
    case Update(b, data) => Up(m.disk, m.view[b := data], Absorb(m.lh, b))
    case CrashInCommit(k) => Down(After(m.disk, ws, k))
    case CrashInRecovery(k) => Down(After(m.disk, ws, k))
    case Commit => Up(After(m.disk, ws, |ws|), After(m.disk, ws, |ws|), [])
    case Recover => Up(After(m.disk, ws, |ws|), After(m.disk, ws, |ws|), [])
  }

  /**
   The simple object the log implements. `groups` holds, for boot and for each committed group, a disk with
   the home blocks as they were after that group; `current` has the home blocks that running code sees.
   */
  datatype Spec = Spec(groups: seq<Disk>, current: Disk)

  /** A crash keeps the committed groups, and the current one too if its header write landed. */
  ghost function SpecStep(s: Spec, e: Event, headerAt: nat): (r: Spec)
    requires s.groups != []
    ensures r.groups != [] && s.groups <= r.groups
  {
    match e
    case Update(b, data) => if b < |s.current| then s.(current := s.current[b := data]) else s
    case Commit => s.(groups := s.groups + [s.current])
    case CrashInCommit(k) =>
      if k > headerAt then s.(groups := s.groups + [s.current])
      else Spec(s.groups, s.groups[|s.groups| - 1])
    case CrashInRecovery(_) => s
    case Recover => s
  }

  ghost function HeaderAt(m: Machine): (k: nat) {
    if m.Up? then |m.lh| else 0
  }

  ghost predicate Implements(g: Geometry, m: Machine, s: Spec)
    requires MachineOk(g, m)
  {
    && s.groups != []
    && var last := s.groups[|s.groups| - 1];
    match m
    case Up(d, view, _) => SameHome(g, view, s.current) && SameHome(g, d, last)
    case Down(d) => SameHome(g, Recovered(g, d), last) && SameHome(g, s.current, last)
  }

  lemma UpdateKeeps(g: Geometry, m: Machine, s: Spec, b: nat, data: Block)
    requires MachineOk(g, m) && Enabled(g, m, Update(b, data)) && Implements(g, m, s)
    ensures MachineOk(g, Step(g, m, Update(b, data)))
    ensures Implements(g, Step(g, m, Update(b, data)), SpecStep(s, Update(b, data), 0))
  {
    var r := Step(g, m, Update(b, data));
    assert b in r.lh && forall x | x in m.lh :: x in r.lh;
  }

  lemma CommitKeeps(g: Geometry, m: Machine, s: Spec)
    requires MachineOk(g, m) && m.Up? && Implements(g, m, s)
    ensures MachineOk(g, Step(g, m, Commit))
    ensures Implements(g, Step(g, m, Commit), SpecStep(s, Commit, |m.lh|))
  {
    CommitLeaves(g, m.disk, m.view, m.lh);
  }

  lemma CrashKeeps(g: Geometry, m: Machine, s: Spec, k: nat)
    requires MachineOk(g, m) && m.Up? && Enabled(g, m, CrashInCommit(k)) && Implements(g, m, s)
    ensures MachineOk(g, Step(g, m, CrashInCommit(k)))
    ensures Implements(g, Step(g, m, CrashInCommit(k)), SpecStep(s, CrashInCommit(k), |m.lh|))
  {
    CommitIsAtomic(g, m.disk, m.view, m.lh, k);
  }

  lemma RecoveryKeeps(g: Geometry, m: Machine, s: Spec, k: nat)
    requires MachineOk(g, m) && m.Down? && Enabled(g, m, CrashInRecovery(k)) && Implements(g, m, s)
    ensures MachineOk(g, Step(g, m, CrashInRecovery(k))) && Implements(g, Step(g, m, CrashInRecovery(k)), s)
    ensures MachineOk(g, Step(g, m, Recover)) && Implements(g, Step(g, m, Recover), s)
  {
    RecoveryIsIdempotent(g, m.disk, k);
    RecoveredIs(g, m.disk);
  }

  /** Every event takes the machine and the simple object to matching states. */
  lemma StepKeeps(g: Geometry, m: Machine, s: Spec, e: Event)
    requires MachineOk(g, m) && Enabled(g, m, e) && Implements(g, m, s)
    ensures MachineOk(g, Step(g, m, e))
    ensures Implements(g, Step(g, m, e), SpecStep(s, e, HeaderAt(m)))
  {
    match e {
      case Update(b, data) => UpdateKeeps(g, m, s, b, data);
      case Commit => CommitKeeps(g, m, s);
      case CrashInCommit(k) => CrashKeeps(g, m, s, k);
      case CrashInRecovery(k) => RecoveryKeeps(g, m, s, k);
      case Recover => RecoveryKeeps(g, m, s, 0);
    }
  }

  lemma StepOk(g: Geometry, m: Machine, e: Event)
    requires MachineOk(g, m) && Enabled(g, m, e)
    ensures MachineOk(g, Step(g, m, e))
  {
    var last := if m.Up? then m.disk else Recovered(g, m.disk);
    StepKeeps(g, m, Spec([last], if m.Up? then m.view else last), e);
  }

  /** Each event of the run is enabled where it happens. */
  ghost predicate RunOk(g: Geometry, m: Machine, es: seq<Event>)
    requires MachineOk(g, m)
    decreases |es|
  {
    es == [] || (Enabled(g, m, es[0]) && (StepOk(g, m, es[0]); RunOk(g, Step(g, m, es[0]), es[1..])))
  }

  ghost function Run(g: Geometry, m: Machine, es: seq<Event>): (r: Machine)
    requires MachineOk(g, m) && RunOk(g, m, es)
    ensures MachineOk(g, r)
    decreases |es|
  {
    if es == [] then m else StepOk(g, m, es[0]); Run(g, Step(g, m, es[0]), es[1..])
  }

  ghost function SpecRun(g: Geometry, m: Machine, s: Spec, es: seq<Event>): (r: Spec)
    requires MachineOk(g, m) && RunOk(g, m, es) && s.groups != []
    ensures r.groups != [] && s.groups <= r.groups
    decreases |es|
  {
    if es == [] then s
    else StepOk(g, m, es[0]); SpecRun(g, Step(g, m, es[0]), SpecStep(s, es[0], HeaderAt(m)), es[1..])
  }

  /**
   Safety over every run: after any sequence of updates, commits, crashes at any write of a commit and crashes
   at any write of any number of recoveries, the machine implements the list of committed groups. What
   recovery restores is the state after a whole number of groups, with every group whose header write landed.
   */
  lemma {:induction false} EveryRunIsAtomic(g: Geometry, m: Machine, s: Spec, es: seq<Event>)
    requires MachineOk(g, m) && RunOk(g, m, es) && Implements(g, m, s)
    ensures Implements(g, Run(g, m, es), SpecRun(g, m, s, es))
    decreases |es|
  {
    if es != [] {
      StepKeeps(g, m, s, es[0]);
      EveryRunIsAtomic(g, Step(g, m, es[0]), SpecStep(s, es[0], HeaderAt(m)), es[1..]);
    }
  }

  // ------------------------------------------------------------------ the code

  /** `write_log` from the blocks of `view`. */
  ghost function LogWrites(g: Geometry, view: Disk, lh: seq<nat>): (ws: seq<Write>)
    requires GoodList(g, lh) && |view| == g.nblocks
    ensures |ws| == |lh|
  {
    seq(|lh|, i requires 0 <= i < |lh| => Write(g.start + 1 + i, view[lh[i]]))
  }

  lemma CommitWritesSplit(g: Geometry, head: Block, view: Disk, lh: seq<nat>, src: Disk, done: seq<Write>)
    requires GoodList(g, lh) && |view| == |src| == g.nblocks && |head| == BSIZE && lh != []
    requires forall i {:trigger lh[i]} | 0 <= i < |lh| :: src[g.start + 1 + i] == view[lh[i]]
    ensures done + LogWrites(g, view, lh) + [Write(g.start, HeadBlock(head, lh))] + InstallWrites(g, src, lh)
            + [Write(g.start, Cleared(head, lh))]
            == done + CommitWrites(g, head, view, lh)
  {
    var full, clear := HeadBlock(head, lh), Cleared(head, lh);
    var ws := LogWrites(g, view, lh) + [Write(g.start, full)] + InstallWrites(g, src, lh) + [Write(g.start, clear)];
    forall i | 0 <= i < 2 * |lh| + 2
      ensures ws[i] == CommitWrite(g, full, clear, view, lh, i)
    {
      assert |lh| < i <= 2 * |lh| ==> src[g.start + i - |lh|] == view[lh[i - |lh| - 1]];
    }
    assert ws == CommitWrites(g, head, view, lh);
  }

  ghost predicate CopiedToLog(g: Geometry, d: Disk, src: Disk, lh: seq<nat>, k: nat, r: Disk)
    requires GoodList(g, lh) && |d| == |src| == g.nblocks && k <= |lh|
  {
    && |r| == g.nblocks
    && (forall i {:trigger lh[i]} | 0 <= i < k :: r[g.start + 1 + i] == src[lh[i]])
    && (forall b: nat {:trigger r[b]} | b < g.nblocks && !(g.start < b <= g.start + k) :: r[b] == d[b])
  }

  lemma CopiedToLogStep(g: Geometry, d: Disk, src: Disk, lh: seq<nat>, k: nat, r: Disk, s: Disk)
    requires GoodList(g, lh) && |d| == |src| == g.nblocks && k < |lh|
    requires CopiedToLog(g, d, src, lh, k, r) && s == r[g.start + 1 + k := src[lh[k]]]
    ensures CopiedToLog(g, d, src, lh, k + 1, s)
  {
  }

  ghost predicate CopiedHome(g: Geometry, d: Disk, src: Disk, lh: seq<nat>, k: nat, r: Disk)
    requires GoodList(g, lh) && |d| == |src| == g.nblocks && k <= |lh|
  {
    && |r| == g.nblocks
    && (forall i {:trigger lh[i]} | 0 <= i < k :: r[lh[i]] == src[g.start + 1 + i])
    && (forall b: nat {:trigger r[b]} | b < g.nblocks && b !in lh[..k] :: r[b] == d[b])
  }

  lemma LogBlockKept(g: Geometry, d: Disk, src: Disk, lh: seq<nat>, k: nat, r: Disk)
    requires GoodList(g, lh) && |d| == |src| == g.nblocks && k < |lh| && CopiedHome(g, d, src, lh, k, r)
    ensures r[g.start + k + 1] == d[g.start + k + 1] && lh[k] < g.nblocks
  {
    assert forall i {:trigger lh[i]} | 0 <= i < |lh| :: g.IsHome(lh[i]);
    assert g.start + k + 1 !in lh[..k];
  }

  lemma CopiedHomeStep(g: Geometry, d: Disk, src: Disk, lh: seq<nat>, k: nat, r: Disk, s: Disk)
    requires GoodList(g, lh) && |d| == |src| == g.nblocks && k < |lh|
    requires CopiedHome(g, d, src, lh, k, r) && s == r[lh[k] := src[g.start + 1 + k]]
    ensures CopiedHome(g, d, src, lh, k + 1, s)
  {
    assert lh[..k + 1] == lh[..k] + [lh[k]];
    assert forall i {:trigger lh[i]} | 0 <= i < k :: lh[i] != lh[k];
  }

  /** The four phases of `commit`, started on `d`, end in the shape of a finished commit. */
  lemma PhasesCompose(g: Geometry, d: Disk, full: Block, clear: Block, view: Disk, lh: seq<nat>, a: Disk, b: Disk,
                      src: Disk, c: Disk, r: Disk)
    requires GoodList(g, lh) && |d| == |view| == |src| == g.nblocks
    requires CopiedToLog(g, d, view, lh, |lh|, a)
    requires b == a[g.start := full]
    requires forall i {:trigger lh[i]} | 0 <= i < |lh| :: src[g.start + 1 + i] == view[lh[i]]
    requires CopiedHome(g, b, src, lh, |lh|, c)
    requires r == c[g.start := clear]
    ensures c[g.start] == full
    ensures CommitShape(g, d, full, clear, view, lh, 2 * |lh| + 2, r)
  {
    assert lh[..|lh|] == lh;
    assert forall i {:trigger lh[i]} | 0 <= i < |lh| :: g.IsHome(lh[i]);
    assert g.start !in lh;
    forall i {:trigger lh[i]} | 0 <= i < |lh|
      ensures r[g.start + 1 + i] == view[lh[i]] && r[lh[i]] == view[lh[i]]
    {
      assert g.start + 1 + i !in lh;
      assert c[g.start + 1 + i] == b[g.start + 1 + i];
    }
  }

  /** A finished commit leaves the same blocks from the old disk and from the view. */
  lemma ShapesMeet(g: Geometry, d: Disk, full: Block, clear: Block, view: Disk, lh: seq<nat>, r: Disk, s: Disk)
    requires CommitReady(g, d, view, lh)
    requires CommitShape(g, d, full, clear, view, lh, 2 * |lh| + 2, r)
    requires CommitShape(g, view, full, clear, view, lh, 2 * |lh| + 2, s)
    ensures r == s
  {
    forall b | 0 <= b < g.nblocks
      ensures r[b] == s[b]
    {
      if b in lh {
        var i :| 0 <= i < |lh| && lh[i] == b;
      } else if g.start < b <= g.start + |lh| {
        var i := b - g.start - 1;
        assert r[g.start + 1 + i] == s[g.start + 1 + i] by { var x := lh[i]; }
      }
    }
  }

  /** What the four phases leave, started on the disk and on the view alike, is the end of the write sequence. */
  lemma CommitEnds(g: Geometry, d: Disk, view: Disk, lh: seq<nat>, a: Disk, va: Disk, b: Disk, vb: Disk, c: Disk,
                   vc: Disk, ws: seq<Write>)
    requires CommitReady(g, d, view, lh) && lh != [] && ws == CommitWrites(g, d[g.start], view, lh)
    requires CopiedToLog(g, d, view, lh, |lh|, a) && CopiedToLog(g, view, view, lh, |lh|, va)
    requires b == a[g.start := HeadBlock(d[g.start], lh)] && vb == va[g.start := HeadBlock(d[g.start], lh)]
    requires CopiedHome(g, b, vb, lh, |lh|, c) && CopiedHome(g, vb, vb, lh, |lh|, vc)
    ensures vc[g.start] == HeadBlock(d[g.start], lh)
    ensures c[g.start := Cleared(d[g.start], lh)] == vc[g.start := Cleared(d[g.start], lh)] == After(d, ws, |ws|)
    ensures forall i {:trigger lh[i]} | 0 <= i < |lh| :: vb[g.start + 1 + i] == view[lh[i]]
  {
    var full, clear := HeadBlock(d[g.start], lh), Cleared(d[g.start], lh);
    var r, s := c[g.start := clear], vc[g.start := clear];
    PhasesCompose(g, d, full, clear, view, lh, a, b, vb, c, r);
    PhasesCompose(g, view, full, clear, view, lh, va, vb, vb, vc, s);
    ShapesMeet(g, d, full, clear, view, lh, r, s);
    var end := After(d, ws, |ws|);
    CommitReaches(g, d, view, lh, |ws|, end);
    CommitShapeUnique(g, d, full, clear, view, lh, |ws|, r, end);
  }

  /**
   The global `log` together with the device. `view` is the flat array that `bread` reads: a block's cached
   copy where there is one, the disk otherwise. `BufferCache` proves that bio.c provides such an array.
   */
  class RedoLog {
    const g: Geometry
    const block: array<nat>
    var n: nat
    var outstanding: nat
    var disk: Disk
    var view: Disk
    ghost var writes: seq<Write>

    ghost predicate Valid()
      reads this, block
    {
      && g.Valid()
      && block.Length == LOGSIZE
      && n <= LOGSIZE
      && (forall i | 0 <= i < n :: block[i] < UINT)
      && |disk| == |view| == g.nblocks
    }

    ghost function List(): (lh: seq<nat>)
      requires Valid()
      reads this, block
    {
      block[..n]
    }

    ghost function State(): (m: Machine)
      requires Valid()
      reads this, block
    {
      Up(disk, view, List())
    }

    /** `initlog`: an empty list in memory, then recovery from what the disk holds. */
    constructor Boot(g: Geometry, disk: Disk)
      requires GoodDisk(g, disk)
      ensures Valid() && fresh(block) && this.g == g && outstanding == 0 && MachineOk(g, State())
      ensures writes == RecoverWrites(g, disk)
      ensures State() == Up(Recovered(g, disk), Recovered(g, disk), [])
    {
      this.g := g;
      block := new nat[LOGSIZE];
      n, outstanding := 0, 0;
      this.disk, view := disk, disk;
      writes := [];
      new;
      RecoverFromLog();
      RecoveredIs(g, disk);
      assert List() == [];
    }

    method Bwrite(b: nat, data: Block)
      requires Valid() && b < g.nblocks
      modifies this`disk, this`view, this`writes
      ensures Valid()
      ensures disk == old(disk)[b := data] && view == old(view)[b := data]
      ensures writes == old(writes) + [Write(b, data)]
    {
      disk := disk[b := data];
      view := view[b := data];
      writes := writes + [Write(b, data)];
    }

    method InstallTrans()
      requires Valid() && GoodList(g, List())
      modifies this`disk, this`view, this`writes
      ensures Valid()
      ensures CopiedHome(g, old(disk), old(view), List(), n, disk)
      ensures CopiedHome(g, old(view), old(view), List(), n, view)
      ensures writes == old(writes) + InstallWrites(g, old(view), List())
    {
      ghost var lh, v0 := List(), view;
      ghost var ws := InstallWrites(g, v0, lh);
      var tail := 0;
      while tail < n
        invariant tail <= n && Valid()
        invariant CopiedHome(g, old(disk), v0, lh, tail, disk)
        invariant CopiedHome(g, v0, v0, lh, tail, view)
        invariant writes == old(writes) + ws[..tail]
      {
        LogBlockKept(g, v0, v0, lh, tail, view);
        var lbuf := view[g.start + tail + 1];
        CopiedHomeStep(g, old(disk), v0, lh, tail, disk, disk[lh[tail] := lbuf]);
        CopiedHomeStep(g, v0, v0, lh, tail, view, view[lh[tail] := lbuf]);
        Bwrite(block[tail], lbuf);
        assert ws[..tail + 1] == ws[..tail] + [ws[tail]];
        tail := tail + 1;
      }
      assert ws[..n] == ws;
    }

    method ReadHead()
      requires Valid() && HeadFits(view[g.start])
      modifies this`n, block
      ensures Valid()
      ensures List() == HeadOf(view[g.start])
    {
      var lh := view[g.start];
      n := Word(lh, 0);
      var i := 0;
      while i < n
        invariant i <= n == Word(lh, 0)
        invariant forall k | 0 <= k < i :: block[k] == Word(lh, 1 + k)
      {
        block[i] := Word(lh, 1 + i);
        i := i + 1;
      }
    }

    method WriteHead()
      requires Valid() && |view[g.start]| == BSIZE
      modifies this`disk, this`view, this`writes
      ensures Valid()
      ensures var hb := HeadBlock(old(view)[g.start], List());
              && disk == old(disk)[g.start := hb] && view == old(view)[g.start := hb]
              && writes == old(writes) + [Write(g.start, hb)]
    {
      ghost var w := [n] + List();
      var hb := SetWord(view[g.start], 0, n);
      var i := 0;
      while i < n
        invariant i <= n && hb == PutWords(old(view)[g.start], 0, w, 1 + i)
      {
        hb := SetWord(hb, 1 + i, block[i]);
        i := i + 1;
      }
      Bwrite(g.start, hb);
    }

    method WriteLog()
      requires Valid() && GoodList(g, List())
      modifies this`disk, this`view, this`writes
      ensures Valid()
      ensures CopiedToLog(g, old(disk), old(view), List(), n, disk)
      ensures CopiedToLog(g, old(view), old(view), List(), n, view)
      ensures writes == old(writes) + LogWrites(g, old(view), List())
    {
      ghost var lh, v0 := List(), view;
      ghost var ws := LogWrites(g, v0, lh);
      var tail := 0;
      while tail < n
        invariant tail <= n && Valid()
        invariant CopiedToLog(g, old(disk), v0, lh, tail, disk)
        invariant CopiedToLog(g, v0, v0, lh, tail, view)
        invariant writes == old(writes) + ws[..tail]
      {
        assert g.IsHome(lh[tail]);
        var from := view[block[tail]];
        Bwrite(g.start + tail + 1, from);
        assert ws[..tail + 1] == ws[..tail] + [ws[tail]];
        tail := tail + 1;
      }
      assert ws[..n] == ws;
    }

    /** The code of `commit` issues exactly the writes that the crash theorems are about. */
    method Commit()
      requires Valid() && MachineOk(g, State())
      modifies this`disk, this`view, this`writes, this`n
      ensures Valid()
      ensures var ws := CommitWrites(g, old(disk)[g.start], old(view), old(List()));
              writes == old(writes) + ws && disk == After(old(disk), ws, |ws|) && view == disk && n == 0
    {
      ghost var d0, v0, lh := disk, view, List();
      ghost var ws := CommitWrites(g, d0[g.start], v0, lh);
      if n > 0 {
        assert view[g.start] == d0[g.start] by {
          assert g.start !in lh;
        }
        WriteLog();
        ghost var a, va := disk, view;
        WriteHead();
        ghost var b, vb := disk, view;
        InstallTrans();
        CommitEnds(g, d0, v0, lh, a, va, b, vb, disk, view, ws);
        CommitWritesSplit(g, d0[g.start], v0, lh, vb, old(writes));
        n := 0;
        assert List() == [];
        WriteHead();
      } else {
        assert lh == [];
        assert view == disk;
      }
    }

    /** Boot: install whatever the header on disk lists, then clear it. */
    method RecoverFromLog()
      requires Valid() && GoodDisk(g, disk) && view == disk
      modifies this`disk, this`view, this`writes, this`n, block
      ensures Valid()
      ensures writes == old(writes) + RecoverWrites(g, old(disk))
      ensures disk == Recovered(g, old(disk)) && view == disk && n == 0
    {
      ghost var d0 := disk;
      ReadHead();
      ghost var lh := List();
      InstallTrans();
      n := 0;
      assert g.start !in lh;
      WriteHead();
      RecoveredIs(g, d0);
      assert lh[..|lh|] == lh;
      InstallShapeUnique(g, d0, lh, disk, Recovered(g, d0));
    }

    /** `log_write` of a buffer holding `data`; the result is false where the code panics. */
    method LogWrite(b: nat, data: Block) returns (ok: bool)
      requires Valid() && b < g.nblocks
      modifies this`n, this`view, block
      ensures Valid()
      ensures ok <==> old(n) < LOGSIZE && old(n) < g.size - 1 && outstanding >= 1
      ensures !ok ==> State() == old(State())
      ensures ok ==> State() == Up(old(disk), old(view)[b := data], Absorb(old(List()), b))
    {
      if n >= LOGSIZE || n >= g.size - 1 {
        return false;
      }
      if outstanding < 1 {
        return false;
      }
      view := view[b := data];
      var i := 0;
      while i < n
        invariant i <= n
        invariant b !in block[..i]
      {
        if block[i] == b {
          break;
        }
        i := i + 1;
      }
      ghost var lh := List();
      assert i < n ==> lh[i] == b;
      block[i] := b;
      if i == n {
        n := n + 1;
      }
      assert List() == Absorb(lh, b);
      return true;
    }
  }
}
