/**
 What mkfs.c leaves for the file system to start from: a super block that reads back, a disk without files that meets the
 invariants of fs.c, and a size of the root directory that keeps them exactly when its number of entries is no multiple
 of 32.
 */
module Mkfs {
  import opened Common
  import opened Blocks
  import opened FsDisk
  import opened Fs

  /** `balloc`: a bitmap block with the first `used` bits set. The source asserts the bound. */
  method Balloc(used: nat) returns (buf: Block)
    requires used < BPB
    ensures |buf| == BSIZE && forall j: nat | j < BPB :: Bit(buf, j) <==> j < used
  {
    buf := Zero();
    forall j: nat | j < BPB
      ensures !Bit(buf, j)
    {
      ZeroBit(j % 8);
    }
    var i := 0;
    while i < used
      invariant i <= used && |buf| == BSIZE
      invariant forall j: nat | j < BPB :: Bit(buf, j) <==> j < i
    {
      forall j: nat | j < BPB
        ensures Bit(SetBit(buf, i, true), j) <==> j < i + 1
      {
        SetBitBit(buf, i, true, j);
      }
      buf := SetBit(buf, i, true);
      i := i + 1;
    }
  }

  lemma {:induction false} ZeroBit(k: nat)
    ensures !TestBit(0, k)
  {
    if k > 0 {
      ZeroBit(k - 1);
    }
  }

  /** No inode in use, and the metadata blocks marked. */
  ghost predicate Blank(x: State) {
    && Layout(x.sb) && |x.inodes| == x.sb.ninodes && |x.bits| == |x.data| == x.sb.size && x.owner == map[]
    && (forall b | DataStart(x.sb) <= b < x.sb.size :: |x.data[b]| == BSIZE)
    && (forall i | 0 <= i < |x.inodes| :: x.inodes[i] == Dinode(0, 0, 0, 0, 0, NoBlocks()))
    && (forall b: nat | b < x.sb.size :: x.bits[b] <==> b < DataStart(x.sb))
  }

  /** A disk without files meets the invariants of fs.c. */
  lemma BlankIsOk(x: State)
    requires Blank(x)
    ensures FilesOk(x)
  {
    assert Sized(x);
    assert forall i: nat, k: nat | i < |x.inodes| && k <= MAXFILE :: SlotOk(x, i, k);
    assert forall k: nat :: !(k * BSIZE < 0);
  }

  lemma ZeroInode(i: nat)
    requires i < IPB
    ensures InodeAt(Zero(), i) == Dinode(0, 0, 0, 0, 0, NoBlocks())
  {
    var w := WordsAt(Zero(), i);
    forall j | 0 <= j < 16
      ensures w[j] == 0
    {
      ZeroWord(16 * i + j);
    }
    assert w[3..] == NoBlocks();
  }

  // The super block.

  /** The words of block 1: of the space that is no inode, bitmap or data block, all but the first two blocks are log. */
  function SuperWords(sb: Super): (w: seq<nat>)
    requires Layout(sb) && sb.ninodes < UINT
    ensures |w| == 7 && forall j | 0 <= j < 7 :: w[j] < UINT
  {
    [sb.size, sb.size - DataStart(sb), sb.ninodes, sb.inodestart - 2, 2, sb.inodestart, sb.bmapstart]
  }

  /** `readsb`. */
  function Readsb(x: Block): (sb: Super)
    requires |x| == BSIZE
  {
    Super(Word(x, 0), Word(x, 2), Word(x, 5), Word(x, 6))
  }

  lemma SuperReadsBack(sb: Super, x: Block)
    requires Layout(sb) && sb.ninodes < UINT && x == PutWords(Zero(), 0, SuperWords(sb), 7)
    ensures forall j: nat | 4 * j < BSIZE :: Word(x, j) == if j < 7 then SuperWords(sb)[j] else 0
    ensures Readsb(x) == sb
    ensures Word(x, 4) == 2 && Word(x, 4) + Word(x, 3) == sb.inodestart && Word(x, 1) == sb.size - DataStart(sb)
  {
    forall j: nat | 4 * j < BSIZE
      ensures Word(x, j) == if j < 7 then SuperWords(sb)[j] else 0
    {
      PutWordsWord(Zero(), 0, SuperWords(sb), 7, j);
      ZeroWord(j);
    }
  }

  /** mkfs without files: the super block, the metadata blocks marked in the bitmap, and every other block zero. */
  method Format(sb: Super) returns (blocks: seq<Block>)
    requires Layout(sb) && DataStart(sb) < BPB && sb.ninodes < UINT
    ensures |blocks| == sb.size && forall b | 0 <= b < sb.size :: |blocks[b]| == BSIZE
    ensures Readsb(blocks[1]) == sb
    ensures var logstart, nlog, nblocks := Word(blocks[1], 4), Word(blocks[1], 3), Word(blocks[1], 1);
            logstart == 2 && logstart + nlog == sb.inodestart && nblocks == sb.size - DataStart(sb)
    ensures forall j: nat | 4 * j < BSIZE :: Word(blocks[1], j) == if j < 7 then SuperWords(sb)[j] else 0
    ensures forall b: nat | b < sb.size && b != 1 && b != sb.bmapstart :: blocks[b] == Zero()
    ensures Blank(State(sb, InodesOf(sb, blocks), BitsOf(sb, blocks), blocks, map[]))
  {
    blocks := seq(sb.size, b => Zero());
    var super := PutWords(Zero(), 0, SuperWords(sb), 7);
    SuperReadsBack(sb, super);
    blocks := blocks[1 := super];
    var buf := Balloc(DataStart(sb));
    blocks := blocks[sb.bmapstart := buf];
    forall b: nat | b < sb.size
      ensures BitsOf(sb, blocks)[b] <==> b < DataStart(sb)
    {
      FormattedBit(sb, blocks, buf, b);
    }
    forall i | 0 <= i < sb.ninodes
      ensures InodesOf(sb, blocks)[i] == Dinode(0, 0, 0, 0, 0, NoBlocks())
    {
      assert i / IPB <= sb.ninodes / IPB;
      ZeroInode(i % IPB);
    }
  }

  lemma FormattedBit(sb: Super, blocks: seq<Block>, buf: Block, b: nat)
    requires Layout(sb) && DataStart(sb) < BPB && |blocks| == sb.size && b < sb.size
    requires blocks[sb.bmapstart] == buf && forall c: nat | c < sb.size && c != 1 && c != sb.bmapstart :: blocks[c] == Zero()
    requires |buf| == BSIZE && forall j: nat | j < BPB :: Bit(buf, j) <==> j < DataStart(sb)
    ensures BitsOf(sb, blocks)[b] <==> b < DataStart(sb)
  {
    assert b / BPB <= sb.size / BPB;
    if b >= BPB {
      assert BBlock(sb, b) != sb.bmapstart;
      ZeroBit(b % BPB % 8);
    }
  }

  /** `iinit` on such a disk: a file system can be started from the super block it finds there. */
  method Mount(sb: Super) returns (fs: FileSystem)
    requires Layout(sb) && DataStart(sb) < BPB && sb.ninodes < UINT
    ensures fs.Valid() && fresh(fs) && fresh(fs.vol) && fs.vol.sb == sb && fs.mem == map[]
  {
    var blocks := Format(sb);
    var vol := new Volume(Readsb(blocks[1]), blocks);
    BlankIsOk(State(sb, vol.inodes, vol.bits, vol.data, map[]));
    fs := new FileSystem(vol, map[]);
  }

  /** The size mkfs gives the root directory at the end, once `iappend` has left it n bytes long. */
  function RootSize(n: nat): (size: nat) {
    (n / BSIZE + 1) * BSIZE
  }

  /**
   With n entries of sixteen bytes the root has the blocks they need. The size rounded up keeps it in order exactly
   when the last block is not full; otherwise the size takes in one block more, which is not there.
   */
  lemma RootSizeIff(d: Dinode, data: seq<Block>, n: nat)
    requires Fits(d) && d.kind != 0 && 16 * n <= MAXSIZE && SlotsTo(d, data, 16 * n)
    ensures Shape(d.(size := RootSize(16 * n)), data) <==> n % 32 != 0
  {
    var e := d.(size := RootSize(16 * n));
    var q := 16 * n / BSIZE;
    assert q == n / 32;
    assert forall k: nat | k <= MAXFILE :: Slot(e, data, k) == Slot(d, data, k);
    if n % 32 == 0 {
      if q < MAXFILE {
        assert Slot(d, data, q) == 0 && q * BSIZE < e.size;
      }
    } else {
      assert forall k: nat :: k * BSIZE < 16 * n <==> k <= q;
      assert forall k: nat :: k * BSIZE < e.size <==> k <= q;
    }
  }

  /** With thirty files beside `.` and `..` the root has 32 entries, and a block too few for its size. */
  lemma RootWithHole(d: Dinode, data: seq<Block>)
    requires Fits(d) && d.kind != 0 && SlotsTo(d, data, 16 * 32)
    ensures var e := d.(size := RootSize(16 * 32)); e.size == 1024 && Slot(e, data, 1) == 0 && !Shape(e, data)
  {
    RootSizeIff(d, data, 32);
    assert Slot(d, data, 1) == 0;
  }
}
