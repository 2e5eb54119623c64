/**
 The disk below the files of fs.c: blocks of bytes that hold the free bitmap, the inodes and the data, laid out as
 fs.h says. Each update of a bit, an inode or a data block is one block write, and is shown to change one entry of
 one of three tables and nothing else. Reads see the newest logged value of a block; the buffer cache and the log
 give that.
 */
module FsDisk {
  import opened Common
  import opened Blocks

  const BPB := 4096
  const IPB := 8
  const NDIRECT := 12
  const NINDIRECT := 128
  const MAXFILE := NDIRECT + NINDIRECT

  function Zero(): (z: Block)
    ensures |z| == BSIZE
  {
    seq(BSIZE, i => 0)
  }

  // Bits of the free map: the source tests `x & (1 << k)`, sets with `x | (1 << k)`, clears with `x & ~(1 << k)`.

  predicate TestBit(x: nat, k: nat) {
    if k == 0 then x % 2 == 1 else TestBit(x / 2, k - 1)
  }

  function PutBit(x: nat, k: nat, on: bool): (y: nat) {
    if k == 0 then x - x % 2 + (if on then 1 else 0) else 2 * PutBit(x / 2, k - 1, on) + x % 2
  }

  lemma {:induction false} PutBitTest(x: nat, k: nat, on: bool, j: nat)
    ensures TestBit(PutBit(x, k, on), j) <==> if j == k then on else TestBit(x, j)
  {
    if k > 0 && j > 0 {
      PutBitTest(x / 2, k - 1, on, j - 1);
      assert PutBit(x, k, on) / 2 == PutBit(x / 2, k - 1, on);
    } else if j > 0 {
      assert PutBit(x, k, on) / 2 == x / 2;
    }
  }

  lemma {:induction false} PutBitSize(x: nat, k: nat, on: bool, n: nat)
    requires k < n && x < Pow2(n)
    ensures PutBit(x, k, on) < Pow2(n)
  {
    var p := Pow2(n - 1);
    assert Pow2(n) == 2 * p && x / 2 < p;
    if k > 0 {
      PutBitSize(x / 2, k - 1, on, n - 1);
      assert PutBit(x, k, on) == 2 * PutBit(x / 2, k - 1, on) + x % 2;
    } else {
      assert PutBit(x, k, on) <= 2 * (x / 2) + 1;
    }
  }

  function PutByte(x: byte, k: nat, on: bool): (y: byte)
    requires k < 8
  {
    assert Pow2(8) == 256;
    PutBitSize(x, k, on, 8);
    PutBit(x, k, on)
  }

  predicate Bit(x: Block, bi: nat)
    requires bi / 8 < |x|
  {
    TestBit(x[bi / 8], bi % 8)
  }

  function SetBit(x: Block, bi: nat, on: bool): (y: Block)
    requires bi / 8 < |x|
    ensures |y| == |x|
  {
    x[bi / 8 := PutByte(x[bi / 8], bi % 8, on)]
  }

  /** Bit bi of the map is the bit of weight 2^(bi % 8) in byte bi / 8. */
  lemma BitIs(x: Block, bi: nat)
    requires bi / 8 < |x|
    ensures Bit(x, bi) <==> x[bi / 8] / Pow2(bi % 8) % 2 == 1
  {
    TestBitIs(x[bi / 8], bi % 8);
  }

  lemma {:induction false} TestBitIs(x: nat, k: nat)
    ensures TestBit(x, k) <==> x / Pow2(k) % 2 == 1
  {
    if k > 0 {
      TestBitIs(x / 2, k - 1);
      var p := Pow2(k - 1);
      DivDiv(x, p);
      assert Pow2(k) == 2 * p;
    }
  }

  lemma DivDiv(x: nat, p: nat)
    requires p >= 1
    ensures x / 2 / p == x / (2 * p)
  {
    var q, r := x / (2 * p), x % (2 * p);
    assert x == 2 * p * q + r;
    var h := r / 2;
    assert h < p && x / 2 == p * q + h;
    DivIs(p, q, h);
  }

  lemma DivIs(p: nat, q: nat, h: nat)
    requires h < p
    ensures (p * q + h) / p == q
  {
    var x := p * q + h;
    var k := x / p - q;
    assert p * k == h - x % p;
    Multiple(p, k);
  }

  lemma Multiple(p: int, k: int)
    requires p >= 0
    ensures (k >= 1 ==> p * k >= p) && (k <= -1 ==> p * k <= -p)
  {
    assert p * k == p + p * (k - 1) == p * (k + 1) - p;
  }

  lemma SetBitBit(x: Block, bi: nat, on: bool, j: nat)
    requires bi / 8 < |x| && j / 8 < |x|
    ensures Bit(SetBit(x, bi, on), j) <==> if j == bi then on else Bit(x, j)
  {
    if j / 8 == bi / 8 {
      PutBitTest(x[bi / 8], bi % 8, on, j % 8);
    }
  }

  // Inodes: sixteen words each, eight to a block.

  /** `struct dinode`, its four short fields as unsigned 16-bit values. */
  datatype Dinode = Dinode(kind: nat, major: nat, minor: nat, nlink: nat, size: nat, addrs: seq<nat>)

  predicate Fits(d: Dinode) {
    && d.kind < 65536 && d.major < 65536 && d.minor < 65536 && d.nlink < 65536 && d.size < UINT
    && |d.addrs| == NDIRECT + 1 && forall j | 0 <= j <= NDIRECT :: d.addrs[j] < UINT
  }

  function Words(d: Dinode): (w: seq<nat>)
    requires Fits(d)
    ensures |w| == 16 && forall j | 0 <= j < 16 :: w[j] < UINT
  {
    [d.kind + 65536 * d.major, d.minor + 65536 * d.nlink, d.size] + d.addrs
  }

  function OfWords(w: seq<nat>): (d: Dinode)
    requires |w| == 16
  {
    Dinode(w[0] % 65536, w[0] / 65536, w[1] % 65536, w[1] / 65536, w[2], w[3..])
  }

  lemma WordsRoundTrip(d: Dinode)
    requires Fits(d)
    ensures OfWords(Words(d)) == d
  {
    assert (d.kind + 65536 * d.major) / 65536 == d.major;
    assert (d.minor + 65536 * d.nlink) / 65536 == d.nlink;
  }

  function WordsAt(x: Block, i: nat): (w: seq<nat>)
    requires i < IPB && |x| == BSIZE
    ensures |w| == 16 && forall j | 0 <= j < 16 :: w[j] == Word(x, 16 * i + j)
  {
    seq<nat>(16, j requires 0 <= j < 16 => Word(x, 16 * i + j))
  }

  function InodeAt(x: Block, i: nat): (d: Dinode)
    requires i < IPB && |x| == BSIZE
  {
    OfWords(WordsAt(x, i))
  }

  function PutInode(x: Block, i: nat, d: Dinode): (y: Block)
    requires i < IPB && |x| == BSIZE && Fits(d)
    ensures |y| == BSIZE
  {
    var w := Words(d);
    PutWords(x, 16 * i, w, |w|)
  }

  lemma PutInodeAt(x: Block, i: nat, d: Dinode, j: nat)
    requires i < IPB && |x| == BSIZE && Fits(d) && j < IPB
    ensures InodeAt(PutInode(x, i, d), j) == if j == i then d else InodeAt(x, j)
  {
    var y, w := PutInode(x, i, d), Words(d);
    forall t | 0 <= t < 16
      ensures WordsAt(y, j)[t] == if j == i then w[t] else WordsAt(x, j)[t]
    {
      PutWordsWord(x, 16 * i, w, |w|, 16 * j + t);
    }
    WordsRoundTrip(d);
    assert WordsAt(y, j) == if j == i then w else WordsAt(x, j);
  }

  /** A short at byte p, the lower byte first. */
  function Half(x: Block, p: nat): (h: nat)
    requires p + 2 <= |x|
  {
    var lo: nat, hi: nat := x[p], x[p + 1];
    lo + 256 * hi
  }

  /** Where the fields of `struct dinode` lie: four shorts, the size and the block numbers, 64 bytes for each inode. */
  lemma InodeLayout(x: Block, i: nat)
    requires i < IPB && |x| == BSIZE
    ensures var d, p := InodeAt(x, i), 64 * i;
            && d.kind == Half(x, p) && d.major == Half(x, p + 2) && d.minor == Half(x, p + 4) && d.nlink == Half(x, p + 6)
            && d.size == Word(x, 16 * i + 2) && |d.addrs| == NDIRECT + 1
            && forall j | 0 <= j <= NDIRECT :: d.addrs[j] == Word(x, 16 * i + 3 + j)
  {
    var w := WordsAt(x, i);
    Halves(x, 16 * i);
    Halves(x, 16 * i + 1);
    assert w[0] == Word(x, 16 * i) && w[1] == Word(x, 16 * i + 1) && w[2] == Word(x, 16 * i + 2);
    forall j | 0 <= j <= NDIRECT
      ensures w[3..][j] == Word(x, 16 * i + 3 + j)
    {
      assert w[3..][j] == w[3 + j] == Word(x, 16 * i + (3 + j));
    }
  }

  lemma Halves(x: Block, k: nat)
    requires 4 * k + 4 <= |x|
    ensures Word(x, k) % 65536 == Half(x, 4 * k) && Word(x, k) / 65536 == Half(x, 4 * k + 2)
  {
    var l, h := Half(x, 4 * k), Half(x, 4 * k + 2);
    assert l < 65536 && Word(x, k) == l + 65536 * h;
  }

  // Layout.

  /** The fields of the super block that place the tables. */
  datatype Super = Super(size: nat, ninodes: nat, inodestart: nat, bmapstart: nat)

  function BBlock(sb: Super, b: nat): nat {
    b / BPB + sb.bmapstart
  }

  function IBlock(sb: Super, i: nat): nat {
    i / IPB + sb.inodestart
  }

  /** mkfs gives the bitmap size / BPB + 1 blocks, the inodes ninodes / IPB + 1, and the data what follows. */
  function DataStart(sb: Super): nat {
    sb.bmapstart + sb.size / BPB + 1
  }

  ghost predicate Layout(sb: Super) {
    && 2 <= sb.inodestart && sb.inodestart + sb.ninodes / IPB + 1 <= sb.bmapstart
    && DataStart(sb) <= sb.size < 0x7fff_f000
  }

  ghost predicate BitHolds(sb: Super, blocks: seq<Block>, bits: seq<bool>, b: nat) {
    && b < |bits| && BBlock(sb, b) < |blocks| && |blocks[BBlock(sb, b)]| == BSIZE
    && (bits[b] <==> Bit(blocks[BBlock(sb, b)], b % BPB))
  }

  ghost predicate InodeHolds(sb: Super, blocks: seq<Block>, inodes: seq<Dinode>, i: nat) {
    && i < |inodes| && IBlock(sb, i) < |blocks| && |blocks[IBlock(sb, i)]| == BSIZE
    && inodes[i] == InodeAt(blocks[IBlock(sb, i)], i % IPB)
  }

  /** In numbers: eight inodes to a block from inodestart on. */
  lemma InodeOnDisk(sb: Super, blocks: seq<Block>, inodes: seq<Dinode>, i: nat)
    requires InodeHolds(sb, blocks, inodes, i)
    ensures sb.inodestart + i / 8 < |blocks| && |blocks[sb.inodestart + i / 8]| == 512
    ensures var x, p := blocks[sb.inodestart + i / 8], 64 * (i % 8);
            && inodes[i].kind == Half(x, p) && inodes[i].major == Half(x, p + 2) && inodes[i].minor == Half(x, p + 4)
            && inodes[i].nlink == Half(x, p + 6) && inodes[i].size == Word(x, p / 4 + 2) && |inodes[i].addrs| == 13
            && forall j | 0 <= j < 13 :: inodes[i].addrs[j] == Word(x, p / 4 + 3 + j)
  {
    InodeLayout(blocks[IBlock(sb, i)], i % IPB);
  }

  /** And 4096 bits to a block from bmapstart on. */
  lemma BitOnDisk(sb: Super, blocks: seq<Block>, bits: seq<bool>, b: nat)
    requires BitHolds(sb, blocks, bits, b)
    ensures sb.bmapstart + b / 4096 < |blocks| && |blocks[sb.bmapstart + b / 4096]| == 512
    ensures bits[b] <==> blocks[sb.bmapstart + b / 4096][b % 4096 / 8] / Pow2(b % 8) % 2 == 1
  {
    BitIs(blocks[BBlock(sb, b)], b % BPB);
    BitOfByte(b);
  }

  lemma BitOfByte(b: nat)
    ensures b % 4096 % 8 == b % 8
  {
    assert b == 8 * (512 * (b / 4096)) + b % 4096;
  }

  /** The blocks hold these three tables; what lies before the inodes, the log among it, has no part in them. */
  ghost predicate Holds(sb: Super, blocks: seq<Block>, bits: seq<bool>, inodes: seq<Dinode>, data: seq<Block>) {
    && Layout(sb) && |blocks| == sb.size && |bits| == sb.size && |data| == sb.size && |inodes| == sb.ninodes
    && (forall b | sb.inodestart <= b < sb.size :: |blocks[b]| == BSIZE)
    && (forall b: nat | b < sb.size :: BitHolds(sb, blocks, bits, b))
    && (forall i: nat | i < sb.ninodes :: InodeHolds(sb, blocks, inodes, i))
    && (forall b | DataStart(sb) <= b < sb.size :: data[b] == blocks[b])
  }

  lemma SetBitOne(sb: Super, blocks: seq<Block>, bits: seq<bool>, b: nat, on: bool, c: nat)
    requires BitHolds(sb, blocks, bits, b) && BitHolds(sb, blocks, bits, c)
    ensures BitHolds(sb, blocks[BBlock(sb, b) := SetBit(blocks[BBlock(sb, b)], b % BPB, on)], bits[b := on], c)
  {
    SetBitBit(blocks[BBlock(sb, b)], b % BPB, on, c % BPB);
    assert BBlock(sb, b) == BBlock(sb, c) && b % BPB == c % BPB ==> b == c;
  }

  /** Writing one bit back changes that bit of the free map only. */
  lemma SetBitHolds(sb: Super, blocks: seq<Block>, bits: seq<bool>, inodes: seq<Dinode>, data: seq<Block>,
                    b: nat, on: bool)
    requires Holds(sb, blocks, bits, inodes, data) && b < sb.size
    ensures BBlock(sb, b) < |blocks| && |blocks[BBlock(sb, b)]| == BSIZE
    ensures Holds(sb, blocks[BBlock(sb, b) := SetBit(blocks[BBlock(sb, b)], b % BPB, on)], bits[b := on], inodes, data)
  {
    var a := BBlock(sb, b);
    assert BitHolds(sb, blocks, bits, b);
    var w, t := blocks[a := SetBit(blocks[a], b % BPB, on)], bits[b := on];
    forall c: nat | c < sb.size
      ensures BitHolds(sb, w, t, c)
    {
      SetBitOne(sb, blocks, bits, b, on, c);
    }
    forall i: nat | i < sb.ninodes
      ensures InodeHolds(sb, w, inodes, i)
    {
      assert InodeHolds(sb, blocks, inodes, i);
    }
  }

  lemma PutInodeOne(sb: Super, blocks: seq<Block>, inodes: seq<Dinode>, i: nat, d: Dinode, j: nat)
    requires InodeHolds(sb, blocks, inodes, i) && InodeHolds(sb, blocks, inodes, j) && Fits(d)
    ensures InodeHolds(sb, blocks[IBlock(sb, i) := PutInode(blocks[IBlock(sb, i)], i % IPB, d)], inodes[i := d], j)
  {
    PutInodeAt(blocks[IBlock(sb, i)], i % IPB, d, j % IPB);
    assert IBlock(sb, i) == IBlock(sb, j) && i % IPB == j % IPB ==> i == j;
  }

  /** Writing one inode back changes that inode only. */
  lemma PutInodeHolds(sb: Super, blocks: seq<Block>, bits: seq<bool>, inodes: seq<Dinode>, data: seq<Block>,
                      i: nat, d: Dinode)
    requires Holds(sb, blocks, bits, inodes, data) && i < sb.ninodes && Fits(d)
    ensures IBlock(sb, i) < |blocks| && |blocks[IBlock(sb, i)]| == BSIZE
    ensures Holds(sb, blocks[IBlock(sb, i) := PutInode(blocks[IBlock(sb, i)], i % IPB, d)], bits, inodes[i := d], data)
  {
    var a := IBlock(sb, i);
    assert InodeHolds(sb, blocks, inodes, i);
    var w, t := blocks[a := PutInode(blocks[a], i % IPB, d)], inodes[i := d];
    forall j: nat | j < sb.ninodes
      ensures InodeHolds(sb, w, t, j)
    {
      PutInodeOne(sb, blocks, inodes, i, d, j);
    }
    forall b: nat | b < sb.size
      ensures BitHolds(sb, w, bits, b)
    {
      assert BitHolds(sb, blocks, bits, b);
    }
  }

  /** Writing a data block changes that block only. */
  lemma PutDataHolds(sb: Super, blocks: seq<Block>, bits: seq<bool>, inodes: seq<Dinode>, data: seq<Block>,
                     b: nat, x: Block)
    requires Holds(sb, blocks, bits, inodes, data) && DataStart(sb) <= b < sb.size && |x| == BSIZE
    ensures Holds(sb, blocks[b := x], bits, inodes, data[b := x])
  {
    var w := blocks[b := x];
    forall c: nat | c < sb.size
      ensures BitHolds(sb, w, bits, c)
    {
      assert BitHolds(sb, blocks, bits, c);
    }
    forall j: nat | j < sb.ninodes
      ensures InodeHolds(sb, w, inodes, j)
    {
      assert InodeHolds(sb, blocks, inodes, j);
    }
  }

  lemma BitOfBlock(sb: Super, blocks: seq<Block>, bits: seq<bool>, inodes: seq<Dinode>, data: seq<Block>, b: nat, bi: nat)
    requires Holds(sb, blocks, bits, inodes, data) && b % BPB == 0 && bi < BPB && b + bi < sb.size
    ensures BBlock(sb, b) < |blocks| && |blocks[BBlock(sb, b)]| == BSIZE
    ensures bits[b + bi] <==> Bit(blocks[BBlock(sb, b)], bi)
  {
    assert BitHolds(sb, blocks, bits, b + bi);
    assert (b + bi) / BPB == b / BPB && (b + bi) % BPB == bi;
  }

  /** The operation has changed no block but those it has logged, and it has logged no block before the inodes. */
  ghost predicate AllLogged(sb: Super, start: seq<Block>, blocks: seq<Block>, logged: set<nat>) {
    && |start| == |blocks| && (forall b | b in logged :: sb.inodestart <= b < sb.size)
    && (forall b | 0 <= b < |blocks| && b !in logged :: blocks[b] == start[b])
  }

  /** The tables that well-sized blocks hold. */
  ghost function BitsOf(sb: Super, blocks: seq<Block>): (bits: seq<bool>)
    ensures |bits| == sb.size
  {
    seq(sb.size, b requires 0 <= b < sb.size =>
      BBlock(sb, b) < |blocks| && |blocks[BBlock(sb, b)]| == BSIZE && Bit(blocks[BBlock(sb, b)], b % BPB))
  }

  ghost function InodesOf(sb: Super, blocks: seq<Block>): (inodes: seq<Dinode>)
    requires Layout(sb) && |blocks| == sb.size && forall b | sb.inodestart <= b < sb.size :: |blocks[b]| == BSIZE
    ensures |inodes| == sb.ninodes
    ensures forall i | 0 <= i < sb.ninodes :: inodes[i] == InodeAt(blocks[IBlock(sb, i)], i % IPB)
  {
    seq(sb.ninodes, i requires 0 <= i < sb.ninodes => InodeAt(blocks[IBlock(sb, i)], i % IPB))
  }

  /** Blocks of the right size hold some tables, whatever is in them. */
  lemma TablesHold(sb: Super, blocks: seq<Block>)
    requires Layout(sb) && |blocks| == sb.size && forall b | sb.inodestart <= b < sb.size :: |blocks[b]| == BSIZE
    ensures Holds(sb, blocks, BitsOf(sb, blocks), InodesOf(sb, blocks), blocks)
  {
    var bits, inodes := BitsOf(sb, blocks), InodesOf(sb, blocks);
    forall b: nat | b < sb.size
      ensures BitHolds(sb, blocks, bits, b)
    {
      assert b / BPB <= sb.size / BPB;
    }
    forall i: nat | i < sb.ninodes
      ensures InodeHolds(sb, blocks, inodes, i)
    {
      assert i / IPB <= sb.ninodes / IPB;
    }
  }

  /** The number of blocks that the free map does not mark. */
  ghost function FreeBlocks(bits: seq<bool>): (n: nat) {
    |set b | 0 <= b < |bits| && !bits[b]|
  }

  lemma TakeOne(bits: seq<bool>, b: nat)
    requires b < |bits| && !bits[b]
    ensures FreeBlocks(bits) == FreeBlocks(bits[b := true]) + 1
  {
    var after := bits[b := true];
    var x, y := set c | 0 <= c < |bits| && !bits[c], set c | 0 <= c < |after| && !after[c];
    assert x == y + {b};
  }

  lemma NoneFree(bits: seq<bool>)
    requires forall b | 0 <= b < |bits| :: bits[b]
    ensures FreeBlocks(bits) == 0
  {
    assert (set b | 0 <= b < |bits| && !bits[b]) == {};
  }

  /** The blocks of one device, and the numbers of those given to log_write in the current operation. */
  class Volume {
    const sb: Super
    var blocks: seq<Block>
    ghost var bits: seq<bool>
    ghost var inodes: seq<Dinode>
    ghost var data: seq<Block>
    ghost var logged: set<nat>
    /** The blocks when the current operation began. */
    ghost var start: seq<Block>

    /** The blocks hold the tables, and what the operation has changed it has logged. */
    ghost predicate Valid()
      reads this
    {
      Holds(sb, blocks, bits, inodes, data) && AllLogged(sb, start, blocks, logged)
    }

    /** A device with these blocks, before any operation. */
    constructor (sb: Super, blocks: seq<Block>)
      requires Layout(sb) && |blocks| == sb.size && forall b | sb.inodestart <= b < sb.size :: |blocks[b]| == BSIZE
      ensures Valid() && this.sb == sb && this.blocks == data == blocks
      ensures bits == BitsOf(sb, blocks) && inodes == InodesOf(sb, blocks)
    {
      TablesHold(sb, blocks);
      this.sb, this.blocks := sb, blocks;
      bits, inodes, data := BitsOf(sb, blocks), InodesOf(sb, blocks), blocks;
      logged, start := {}, blocks;
    }

    /** `begin_op`: nothing is logged for the operation yet. */
    method BeginOp()
      requires Valid()
      modifies this`logged, this`start
      ensures Valid() && logged == {} && start == blocks
    {
      logged, start := {}, blocks;
    }

    /** Read a data block. */
    method Bread(b: nat) returns (x: Block)
      requires Valid() && DataStart(sb) <= b < sb.size
      ensures x == data[b] && |x| == BSIZE
    {
      x := blocks[b];
    }

    /** Write a data block through the log. */
    method LogData(b: nat, x: Block)
      requires Valid() && DataStart(sb) <= b < sb.size && |x| == BSIZE
      modifies this`blocks, this`data, this`logged
      ensures Valid() && data == old(data)[b := x] && logged == old(logged) + {b}
    {
      PutDataHolds(sb, blocks, bits, inodes, data, b, x);
      blocks := blocks[b := x];
      data, logged := data[b := x], logged + {b};
    }

    /** The inner loop of `balloc`: the first clear bit of the bitmap block that starts with block b. */
    method ScanBlock(b: nat) returns (bi: nat)
      requires Valid() && b < sb.size && b % BPB == 0
      ensures bi <= BPB && forall c | b <= c < b + bi && c < sb.size :: bits[c]
      ensures bi == BPB || b + bi >= sb.size || !bits[b + bi]
    {
      BitOfBlock(sb, blocks, bits, inodes, data, b, 0);
      var x := blocks[BBlock(sb, b)];
      bi := 0;
      while bi < BPB && b + bi < sb.size
        invariant bi <= BPB && forall c | b <= c < b + bi && c < sb.size :: bits[c]
      {
        BitOfBlock(sb, blocks, bits, inodes, data, b, bi);
        if !Bit(x, bi) {
          return;
        }
        bi := bi + 1;
      }
    }

    /** The search of `balloc`: bitmap block by bitmap block. */
    method FindFree() returns (r: Option)
      requires Valid()
      ensures r.None? ==> forall b | 0 <= b < sb.size :: bits[b]
      ensures r.Some? ==> r.value < sb.size && !bits[r.value] && forall b | 0 <= b < r.value :: bits[b]
    {
      var b := 0;
      while b < sb.size
        invariant 0 <= b && b % BPB == 0
        invariant forall c | 0 <= c < b && c < sb.size :: bits[c]
      {
        var bi := ScanBlock(b);
        if bi < BPB && b + bi < sb.size {
          return Some(b + bi);
        }
        b := b + BPB;
      }
      return None;
    }

    /** `balloc`: mark the lowest free block used and zero it; without a free block the source panics. */
    method Balloc() returns (r: Option)
      requires Valid() && forall b | 0 <= b < DataStart(sb) :: bits[b]
      modifies this`blocks, this`bits, this`data, this`logged
      ensures Valid()
      ensures r.None? <==> forall b | 0 <= b < sb.size :: old(bits)[b]
      ensures r.None? ==> blocks == old(blocks) && bits == old(bits) && data == old(data) && logged == old(logged)
      ensures r.Some? ==> DataStart(sb) <= r.value < sb.size && !old(bits)[r.value]
      ensures r.Some? ==> forall b | 0 <= b < r.value :: old(bits)[b]
      ensures r.Some? ==> bits == old(bits)[r.value := true] && data == old(data)[r.value := Zero()]
      ensures r.Some? ==> logged == old(logged) + {BBlock(sb, r.value), r.value}
    {
      r := FindFree();
      if r.Some? {
        Mark(r.value);
        LogData(r.value, Zero());
      }
    }

    /** Set a bit of the free map. */
    method Mark(b: nat)
      requires Valid() && b < sb.size
      modifies this`blocks, this`bits, this`logged
      ensures Valid() && bits == old(bits)[b := true] && logged == old(logged) + {BBlock(sb, b)}
    {
      SetBitHolds(sb, blocks, bits, inodes, data, b, true);
      blocks := blocks[BBlock(sb, b) := SetBit(blocks[BBlock(sb, b)], b % BPB, true)];
      bits, logged := bits[b := true], logged + {BBlock(sb, b)};
    }

    /** `bfree`: it panics exactly when the block is already free. */
    method Bfree(b: nat) returns (ok: bool)
      requires Valid() && b < sb.size
      modifies this`blocks, this`bits, this`logged
      ensures Valid() && (ok <==> old(bits)[b])
      ensures bits == old(bits)[b := false]
      ensures logged == if ok then old(logged) + {BBlock(sb, b)} else old(logged)
    {
      assert BitHolds(sb, blocks, bits, b);
      SetBitHolds(sb, blocks, bits, inodes, data, b, false);
      if !Bit(blocks[BBlock(sb, b)], b % BPB) {
        return false;
      }
      blocks := blocks[BBlock(sb, b) := SetBit(blocks[BBlock(sb, b)], b % BPB, false)];
      bits, logged := bits[b := false], logged + {BBlock(sb, b)};
      return true;
    }

    /** `iupdate`: copy an inode to its place on the disk. */
    method Iupdate(i: nat, d: Dinode)
      requires Valid() && i < sb.ninodes && Fits(d)
      modifies this`blocks, this`inodes, this`logged
      ensures Valid() && inodes == old(inodes)[i := d] && logged == old(logged) + {IBlock(sb, i)}
    {
      PutInodeHolds(sb, blocks, bits, inodes, data, i, d);
      blocks := blocks[IBlock(sb, i) := PutInode(blocks[IBlock(sb, i)], i % IPB, d)];
      inodes, logged := inodes[i := d], logged + {IBlock(sb, i)};
    }

    /** The read in `ilock`. */
    method ReadInode(i: nat) returns (d: Dinode)
      requires Valid() && i < sb.ninodes
      ensures d == inodes[i]
    {
      assert InodeHolds(sb, blocks, inodes, i);
      d := InodeAt(blocks[IBlock(sb, i)], i % IPB);
    }
  }
}
