/**
 `filewrite` on an inode, of file.c: a write of any length, cut into operations that each stay within the blocks one
 operation may log.
 */
module File {
  import opened Common
  import opened Blocks
  import opened FsDisk
  import opened Fs

  /** The bytes that one operation writes at most. */
  const MAXCHUNK := (MAXOPBLOCKS - 1 - 1 - 2) / 2 * BSIZE

  /** At most four data blocks, of which three are new: the first block of an unaligned write is there already. */
  lemma ChunkBlocks(off: nat, n: nat, size: nat)
    requires n <= MAXCHUNK && off <= size
    ensures Touched(off, n) <= 4 && BlocksFor(Max(size, off + n)) - BlocksFor(size) <= 3
  {
  }

  /** The bound is met, and one byte more would break it. */
  lemma ChunkIsTight()
    ensures Touched(6143, MAXCHUNK) == 4 && BlocksFor(6143 + MAXCHUNK) - BlocksFor(6143) == 3
    ensures Touched(6144, MAXCHUNK + 1) == 4 && BlocksFor(6144 + MAXCHUNK + 1) - BlocksFor(6144) == 4
  {
  }

  /** Four data blocks, four bitmap blocks, the indirect block and the inode's block make ten. */
  lemma WithinBudget(d: Dinode, e: Dinode, logged: set<nat>, bm: set<nat>, ds: set<nat>, off: nat, n: nat, ib: nat)
    requires |d.addrs| == NDIRECT + 1 && |e.addrs| == NDIRECT + 1 && n <= MAXCHUNK && off <= d.size
    requires logged <= bm + ds + Indirect(e) + {ib} && |ds| <= Touched(off, n) && e.size == Max(d.size, off + n)
    requires |bm| <= BlocksFor(e.size) - BlocksFor(d.size) + |Indirect(e) - Indirect(d)|
    ensures |logged| <= MAXOPBLOCKS
  {
    ChunkBlocks(off, n, d.size);
    SubsetCard(logged, bm + ds + Indirect(e) + {ib});
    SubsetCard(Indirect(e) - Indirect(d), Indirect(e));
    assert |Indirect(e)| <= 1;
  }

  lemma OverwriteTwice(c: seq<byte>, off: nat, a: seq<byte>, b: seq<byte>)
    requires off <= |c|
    ensures Overwrite(Overwrite(c, off, a), off + |a|, b) == Overwrite(c, off, a + b)
  {
  }

  lemma DoneTwice(x: State, y: State, z: State, i: nat, off: nat, src: seq<byte>, k: nat, m: nat)
    requires FilesOk(x) && i < |x.inodes| && off <= x.inodes[i].size && k <= m <= |src|
    requires WriteDone(x, y, i, off, src[..k]) && WriteDone(y, z, i, off + k, src[k..m])
    ensures WriteDone(x, z, i, off, src[..m])
  {
    assert src[..m] == src[..k] + src[k..m];
    OverwriteTwice(Bytes(x.inodes[i], x.data), off, src[..k], src[k..m]);
  }

  lemma DoneNothing(x: State, i: nat, off: nat, src: seq<byte>)
    requires FilesOk(x) && i < |x.inodes| && off <= x.inodes[i].size && src == []
    ensures WriteDone(x, x, i, off, src)
  {
  }

  /** One operation of filewrite, between begin_op and end_op: what it logs fits the share of one operation. */
  method WriteChunk(fs: FileSystem, i: nat, off: nat, src: seq<byte>) returns (r: Outcome)
    requires fs.Valid() && i in fs.mem && off < UINT && |src| <= MAXCHUNK
    modifies fs`mem, fs`owner, fs.vol`blocks, fs.vol`bits, fs.vol`inodes, fs.vol`data, fs.vol`logged, fs.vol`start
    ensures r.Failed? <==> off > old(fs.mem[i]).size || off + |src| >= UINT || off + |src| > MAXSIZE
    ensures r.Failed? ==> fs.Valid() && fs.mem == old(fs.mem) && fs.Whole() == old(fs.Whole())
    ensures r.Done? ==> fs.Valid() && r.count == |src| && WriteDone(old(fs.Whole()), fs.Whole(), i, off, src)
    ensures !r.Panic? ==> |fs.vol.logged| <= MAXOPBLOCKS && fs.vol.start == old(fs.vol.blocks)
    ensures r.Panic? ==> fs.vol.Valid() && forall b | 0 <= b < fs.vol.sb.size :: fs.vol.bits[b]
    ensures !r.Failed? ==> (r.Panic? <==> Short(old(fs.vol.bits), old(fs.mem[i]).size, off + |src|))
    ensures r.Done? ==> Spent(old(fs.vol.bits), old(fs.mem[i]).size, fs.vol.bits, fs.mem[i].size)
  {
    ghost var d := fs.mem[i];
    fs.vol.BeginOp();
    assert fs.Whole() == old(fs.Whole());
    FilesOkSame(old(fs.Whole()), fs.Whole());
    ghost var bm, ds;
    r, bm, ds := fs.Writei(i, src, off);
    if r.Done? {
      WithinBudget(d, fs.mem[i], fs.vol.logged, bm, ds, off, |src|, IBlock(fs.vol.sb, i));
    }
  }

  /** Whole chunks have been written, up to i. */
  ghost predicate Chunks(x: State, y: State, ip: nat, off: nat, src: seq<byte>, i: nat)
    requires FilesOk(x) && ip < |x.inodes| && i <= |src|
  {
    if off <= x.inodes[ip].size
    then WriteDone(x, y, ip, off, src[..i]) && off + i <= MAXSIZE
    else i == 0 && y == x
  }

  /** The length of the chunk at i. */
  function ChunkSize(i: nat, n: nat): nat
    requires i <= n
  {
    if n - i > MAXCHUNK then MAXCHUNK else n - i
  }

  ghost predicate AtChunk(i: nat) {
    i % MAXCHUNK == 0
  }

  lemma NextChunk(i: nat, n: nat, to: nat)
    requires AtChunk(i) && i < n && to == i + ChunkSize(i, n)
    ensures i < to <= n && (to < n ==> AtChunk(to))
  {
    assert MAXCHUNK == 1536;
  }

  /** The bytes that filewrite writes, from byte i on, if the disk has the blocks. */
  function Reach(off: nat, n: nat, i: nat): (r: nat)
    requires i <= n
    ensures i <= r <= n
    decreases n - i
  {
    if i == n || off + i + ChunkSize(i, n) > MAXSIZE then i else Reach(off, n, i + ChunkSize(i, n))
  }

  lemma ReachStep(off: nat, n: nat, i: nat, to: nat)
    requires i < n && to == i + ChunkSize(i, n) && off + to <= MAXSIZE
    ensures to <= Reach(off, n, i) == Reach(off, n, to)
  {
  }

  /** The file as long as the chunks have made it. */
  lemma ChunksSize(x: State, y: State, ip: nat, off: nat, src: seq<byte>, i: nat)
    requires FilesOk(x) && ip < |x.inodes| && i <= |src| && Chunks(x, y, ip, off, src, i)
    ensures FilesOk(y) && |y.inodes| == |x.inodes|
    ensures y.inodes[ip].size == if off <= x.inodes[ip].size then Max(x.inodes[ip].size, off + i) else x.inodes[ip].size
  {
  }

  /** A chunk for which the disk lacks blocks is one for which it lacked them at the start. */
  lemma ChunkShort(x: State, y: State, ip: nat, off: nat, src: seq<byte>, i: nat, to: nat, end: nat)
    requires FilesOk(x) && ip < |x.inodes| && i < |src| && Chunks(x, y, ip, off, src, i) && i < to <= end
    requires ip < |y.inodes| && off <= x.inodes[ip].size
    requires Spent(x.bits, x.inodes[ip].size, y.bits, y.inodes[ip].size) && Short(y.bits, y.inodes[ip].size, off + to)
    ensures Short(x.bits, x.inodes[ip].size, off + end)
  {
    ChunksSize(x, y, ip, off, src, i);
  }

  /** One chunk more. */
  lemma ChunkDone(x: State, y: State, z: State, ip: nat, off: nat, src: seq<byte>, i: nat, to: nat, cur: nat,
                  piece: seq<byte>)
    requires FilesOk(x) && ip < |x.inodes| && i < to <= |src| && Chunks(x, y, ip, off, src, i)
    requires FilesOk(y) && |y.inodes| == |x.inodes| && cur <= y.inodes[ip].size && cur + |piece| <= MAXSIZE
    requires cur == off + i && piece == src[i..to] && WriteDone(y, z, ip, cur, piece)
    ensures Chunks(x, z, ip, off, src, to) && off <= x.inodes[ip].size
  {
    ChunksSize(x, y, ip, off, src, i);
    DoneTwice(x, y, z, ip, off, src, i, to);
  }

  lemma SpentNotShort(bits: seq<bool>, size: nat, now: seq<bool>, to: nat)
    requires Spent(bits, size, now, Max(size, to))
    ensures !Short(bits, size, to)
  {
  }

  /** One turn of the loop of filewrite. */
  method ChunkTurn(fs: FileSystem, ip: nat, off: nat, src: seq<byte>, i: nat, ghost x: State)
      returns (r: Outcome, next: nat)
    requires FilesOk(x) && ip < |x.inodes| && i < |src| && off < UINT && |src| < 0x8000_0000
    requires fs.Valid() && ip in fs.mem && Chunks(x, fs.Whole(), ip, off, src, i) && AtChunk(i)
    modifies fs`mem, fs`owner, fs.vol`blocks, fs.vol`bits, fs.vol`inodes, fs.vol`data, fs.vol`logged, fs.vol`start
    ensures next == if r.Done? then i + ChunkSize(i, |src|) else i
    ensures r.Done? ==> r.count == |src| && i < next <= |src| && (next < |src| ==> AtChunk(next))
    ensures r.Done? ==> fs.Valid() && Chunks(x, fs.Whole(), ip, off, src, next) && off <= x.inodes[ip].size
    ensures r.Failed? ==> fs.Valid() && fs.mem == old(fs.mem) && fs.Whole() == old(fs.Whole())
    ensures r.Failed? <==> off > x.inodes[ip].size || off + i + ChunkSize(i, |src|) > MAXSIZE
    ensures r.Done? ==> ip in fs.mem && Spent(old(fs.vol.bits), old(fs.mem[ip]).size, fs.vol.bits, fs.mem[ip].size)
    ensures r.Panic? ==> Short(old(fs.vol.bits), old(fs.mem[ip]).size, off + i + ChunkSize(i, |src|))
    ensures r.Panic? ==> fs.vol.Valid() && forall b | 0 <= b < fs.vol.sb.size :: fs.vol.bits[b]
  {
    next := i;
    ghost var y := fs.Whole();
    var cur, to := off + i, i + ChunkSize(i, |src|);
    NextChunk(i, |src|, to);
    ChunksSize(x, y, ip, off, src, i);
    var piece := src[i..to];
    r := WriteChunk(fs, ip, cur, piece);
    if r.Done? {
      ChunkDone(x, y, fs.Whole(), ip, off, src, i, to, cur, piece);
      r, next := Done(|src|), to;
    }
  }

  /**
   `filewrite` on inode ip at offset off: it writes all of src, or as many whole chunks as end before the limit of a
   file, or nothing past the end of the file. The offset of the open file moves on by `done`. It panics exactly when
   fewer blocks are free than those bytes need.
   */
  method Filewrite(fs: FileSystem, ip: nat, off: nat, src: seq<byte>) returns (r: Outcome, done: nat)
    requires fs.Valid() && ip in fs.mem && off < UINT && |src| < 0x8000_0000
    modifies fs`mem, fs`owner, fs.vol`blocks, fs.vol`bits, fs.vol`inodes, fs.vol`data, fs.vol`logged, fs.vol`start
    ensures !r.Panic? ==> fs.Valid() && done <= |src| && Chunks(old(fs.Whole()), fs.Whole(), ip, off, src, done)
    ensures r.Done? ==> done == |src| == r.count
    ensures !r.Panic? ==> (r.Done? <==> |src| == 0 || (off <= old(fs.mem[ip]).size && off + |src| <= MAXSIZE))
    ensures r.Failed? && off <= old(fs.mem[ip]).size ==>
              AtChunk(done) && off + done <= MAXSIZE < off + done + ChunkSize(done, |src|)
    ensures r.Panic? ==> fs.vol.Valid() && forall b | 0 <= b < fs.vol.sb.size :: fs.vol.bits[b]
    ensures r.Panic? <==> && off <= old(fs.mem[ip]).size
                          && Short(old(fs.vol.bits), old(fs.mem[ip]).size, off + Reach(off, |src|, 0))
  {
    ghost var x, end := fs.Whole(), Reach(off, |src|, 0);
    assert fs.mem[ip].size == x.inodes[ip].size;
    r, done := WriteChunks(fs, ip, off, src, x, end);
    if !r.Panic? {
      LoopEnds(x, fs.Whole(), ip, off, src, done, r.Failed?, end);
    }
  }

  /** How the loop of `filewrite` came to its end. */
  lemma LoopEnds(x: State, z: State, ip: nat, off: nat, src: seq<byte>, done: nat, failed: bool,
                 end: nat)
    requires FilesOk(x) && ip < |x.inodes| && done <= |src| && Chunks(x, z, ip, off, src, done) && ip < |z.inodes|
    requires Spent(x.bits, x.inodes[ip].size, z.bits, z.inodes[ip].size)
    requires end == Reach(off, |src|, done)
    requires if failed then done < |src| && (off > x.inodes[ip].size || off + done + ChunkSize(done, |src|) > MAXSIZE)
             else done == |src| && (done > 0 ==> off <= x.inodes[ip].size)
    ensures !failed <==> |src| == 0 || (off <= x.inodes[ip].size && off + |src| <= MAXSIZE)
    ensures off <= x.inodes[ip].size ==> off + done <= MAXSIZE && !Short(x.bits, x.inodes[ip].size, off + end)
  {
    ChunksSize(x, z, ip, off, src, done);
    if off <= x.inodes[ip].size {
      SpentNotShort(x.bits, x.inodes[ip].size, z.bits, off + done);
    }
  }

  /** The loop of `filewrite`. */
  method WriteChunks(fs: FileSystem, ip: nat, off: nat, src: seq<byte>, ghost x: State, ghost end: nat)
      returns (r: Outcome, done: nat)
    requires fs.Valid() && ip in fs.mem && off < UINT && |src| < 0x8000_0000 && x == fs.Whole()
    requires end == Reach(off, |src|, 0)
    modifies fs`mem, fs`owner, fs.vol`blocks, fs.vol`bits, fs.vol`inodes, fs.vol`data, fs.vol`logged, fs.vol`start
    ensures done <= |src| && (r.Done? ==> done == |src| == r.count)
    ensures !r.Panic? ==> fs.Valid() && Chunks(x, fs.Whole(), ip, off, src, done) && end == Reach(off, |src|, done)
    ensures !r.Panic? ==> Spent(x.bits, x.inodes[ip].size, fs.vol.bits, fs.Whole().inodes[ip].size)
    ensures r.Done? && done > 0 ==> off <= x.inodes[ip].size
    ensures r.Failed? ==> done < |src| && AtChunk(done)
    ensures r.Failed? ==> off > x.inodes[ip].size || off + done + ChunkSize(done, |src|) > MAXSIZE
    ensures r.Panic? ==> fs.vol.Valid() && forall b | 0 <= b < fs.vol.sb.size :: fs.vol.bits[b]
    ensures r.Panic? ==> off <= x.inodes[ip].size && Short(x.bits, x.inodes[ip].size, off + end)
  {
    r, done := Done(|src|), 0;
    if off <= fs.mem[ip].size {
      DoneNothing(x, ip, off, src[..0]);
    }
    while r.Done? && done < |src|
      invariant done <= |src| && (r.Done? ==> r.count == |src|) && end == Reach(off, |src|, done)
      invariant r.Panic? ==> fs.vol.Valid() && forall b | 0 <= b < fs.vol.sb.size :: fs.vol.bits[b]
      invariant !r.Panic? ==> fs.Valid() && ip in fs.mem && Chunks(x, fs.Whole(), ip, off, src, done)
      invariant done > 0 ==> off <= x.inodes[ip].size
      invariant done < |src| ==> AtChunk(done)
      invariant !r.Panic? ==> Spent(x.bits, x.inodes[ip].size, fs.vol.bits, fs.mem[ip].size)
      invariant r.Panic? ==> off <= x.inodes[ip].size && Short(x.bits, x.inodes[ip].size, off + end)
      invariant r.Failed? ==> done < |src| && (off > x.inodes[ip].size || off + done + ChunkSize(done, |src|) > MAXSIZE)
      decreases r.Done?, |src| - done
    {
      r, done := CountTurn(fs, ip, off, src, done, x, end);
    }
  }

  /** A turn, and what it means for a loop that ends at byte `end` if the disk has the blocks. */
  method CountTurn(fs: FileSystem, ip: nat, off: nat, src: seq<byte>, i: nat, ghost x: State, ghost end: nat)
      returns (r: Outcome, next: nat)
    requires FilesOk(x) && ip < |x.inodes| && i < |src| && off < UINT && |src| < 0x8000_0000
    requires fs.Valid() && ip in fs.mem && Chunks(x, fs.Whole(), ip, off, src, i) && AtChunk(i)
    requires Spent(x.bits, x.inodes[ip].size, fs.vol.bits, fs.mem[ip].size) && end == Reach(off, |src|, i)
    modifies fs`mem, fs`owner, fs.vol`blocks, fs.vol`bits, fs.vol`inodes, fs.vol`data, fs.vol`logged, fs.vol`start
    ensures i <= next <= |src| && (!r.Done? ==> next == i) && (r.Done? ==> r.count == |src| && i < next)
    ensures !r.Panic? ==> fs.Valid() && ip in fs.mem && Chunks(x, fs.Whole(), ip, off, src, next)
    ensures r.Done? ==> off <= x.inodes[ip].size && (next < |src| ==> AtChunk(next))
    ensures r.Failed? <==> off > x.inodes[ip].size || off + i + ChunkSize(i, |src|) > MAXSIZE
    ensures !r.Panic? ==> Spent(x.bits, x.inodes[ip].size, fs.vol.bits, fs.mem[ip].size)
    ensures r.Done? ==> end == Reach(off, |src|, next)
    ensures r.Panic? ==> fs.vol.Valid() && forall b | 0 <= b < fs.vol.sb.size :: fs.vol.bits[b]
    ensures r.Panic? ==> off <= x.inodes[ip].size && Short(x.bits, x.inodes[ip].size, off + end)
  {
    ghost var y, to := fs.Whole(), i + ChunkSize(i, |src|);
    if off + to <= MAXSIZE {
      ReachStep(off, |src|, i, to);
    }
    r, next := ChunkTurn(fs, ip, off, src, i, x);
    if r.Panic? {
      ChunkShort(x, y, ip, off, src, i, to, end);
    }
  }
}
