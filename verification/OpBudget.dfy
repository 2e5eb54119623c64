/**
 How many blocks one operation of fs.c may log when it truncates a file. The blocks of a file may lie anywhere on the
 disk, and truncation logs the bitmap block of each: it stays within the share of one operation for every file if and
 only if fewer bitmap blocks than that share have bits of data blocks.
 */
module OpBudget {
  import opened Common
  import opened Blocks
  import opened FsDisk
  import opened Fs

  /** The k-th block of a file whose blocks have their bits in one bitmap block each. */
  function SpreadAddrs(sb: Super): (a: seq<nat>)
    ensures |a| == NDIRECT + 1
  {
    seq(NDIRECT + 1, k => if 0 <= k < MAXOPBLOCKS then SpreadBlock(sb, k) else 0)
  }

  ghost function SpreadInode(sb: Super): (d: Dinode) {
    Dinode(2, 0, 0, 1, MAXOPBLOCKS * BSIZE, SpreadAddrs(sb))
  }

  /** A disk with that file, of as many blocks as an operation may log, and no other. */
  ghost function Spread(sb: Super, i: nat): (x: State)
    requires Layout(sb) && DataMaps(sb) >= MAXOPBLOCKS && i < sb.ninodes
  {
    var blank := seq(sb.ninodes, j => Dinode(0, 0, 0, 0, 0, NoBlocks()));
    var owner := SpreadOwner(sb, i, MAXOPBLOCKS);
    State(sb, blank[i := SpreadInode(sb)], seq(sb.size, b requires 0 <= b => b < DataStart(sb) || b in owner),
          seq(sb.size, b => Zero()), owner)
  }

  ghost function SpreadOwner(sb: Super, i: nat, n: nat): (m: map<nat, (nat, nat)>)
  {
    if n == 0 then map[] else SpreadOwner(sb, i, n - 1)[SpreadBlock(sb, n - 1) := (i, n - 1)]
  }

  lemma Apart(sb: Super, j: nat, k: nat)
    requires Layout(sb) && DataMaps(sb) >= MAXOPBLOCKS && j < k < MAXOPBLOCKS
    ensures SpreadBlock(sb, j) != SpreadBlock(sb, k)
    ensures DataStart(sb) < sb.size
  {
    DataExists(sb);
    SpreadBlocks(sb, j);
    SpreadBlocks(sb, k);
  }

  lemma DataExists(sb: Super)
    requires Layout(sb) && DataMaps(sb) >= 2
    ensures DataStart(sb) < sb.size
  {
  }

  lemma {:induction false} SpreadOwners(sb: Super, i: nat, n: nat)
    requires Layout(sb) && DataMaps(sb) >= MAXOPBLOCKS && n <= MAXOPBLOCKS
    ensures forall k: nat | k < n :: SpreadBlock(sb, k) in SpreadOwner(sb, i, n) && SpreadOwner(sb, i, n)[SpreadBlock(sb, k)] == (i, k)
    ensures forall b | b in SpreadOwner(sb, i, n) ::
              SpreadOwner(sb, i, n)[b].0 == i && SpreadOwner(sb, i, n)[b].1 < n && b == SpreadBlock(sb, SpreadOwner(sb, i, n)[b].1)
  {
    if n > 0 {
      SpreadOwners(sb, i, n - 1);
      forall k: nat | k < n - 1
        ensures SpreadBlock(sb, k) != SpreadBlock(sb, n - 1)
      {
        Apart(sb, k, n - 1);
      }
    }
  }

  lemma SpreadSlots(sb: Super, i: nat, j: nat, k: nat)
    requires Layout(sb) && DataMaps(sb) >= MAXOPBLOCKS && i < sb.ninodes && j < sb.ninodes && k <= MAXFILE
    ensures var x := Spread(sb, i);
            && |x.inodes[j].addrs| == NDIRECT + 1
            && Slot(x.inodes[j], x.data, k) == if j == i && k < MAXOPBLOCKS then SpreadBlock(sb, k) else 0
  {
  }

  lemma SpreadIsOk(sb: Super, i: nat)
    requires Layout(sb) && DataMaps(sb) >= MAXOPBLOCKS && i < sb.ninodes
    ensures FilesOk(Spread(sb, i))
  {
    var x := Spread(sb, i);
    SpreadOwners(sb, i, MAXOPBLOCKS);
    DataExists(sb);
    forall k: nat | k < MAXOPBLOCKS
      ensures DataStart(sb) <= SpreadBlock(sb, k) < sb.size
    {
      SpreadBlocks(sb, k);
    }
    assert Sized(x);
    forall j: nat, k: nat | j < |x.inodes| && k <= MAXFILE
      ensures SlotOk(x, j, k)
    {
      SpreadSlots(sb, i, j, k);
    }
    forall b | b in x.owner
      ensures OwnerOk(x, b)
    {
      SpreadSlots(sb, i, i, x.owner[b].1);
    }
    forall j: nat | j < |x.inodes|
      ensures Shape(x.inodes[j], x.data)
    {
      forall k: nat | k <= MAXFILE
        ensures Slot(x.inodes[j], x.data, k) == if j == i && k < MAXOPBLOCKS then SpreadBlock(sb, k) else 0
      {
        SpreadSlots(sb, i, j, k);
      }
    }
  }

  /** Truncating it logs one block too many. */
  lemma SpreadLogs(sb: Super, i: nat)
    requires Layout(sb) && DataMaps(sb) >= MAXOPBLOCKS && i < sb.ninodes
    ensures |TruncLog(Spread(sb, i), i)| > MAXOPBLOCKS
  {
    var x := Spread(sb, i);
    SpreadOwners(sb, i, MAXOPBLOCKS);
    DataExists(sb);
    var lo := sb.bmapstart + DataStart(sb) / BPB;
    var maps := Interval(lo, lo + MAXOPBLOCKS);
    forall c | c in maps
      ensures c in MapBlocks(x, i, MAXFILE + 1)
    {
      SpreadBlocks(sb, c - lo);
      assert SpreadBlock(sb, c - lo) in OwnedTo(x, i, MAXFILE + 1);
    }
    assert IBlock(sb, i) !in maps by {
      assert i / IPB <= sb.ninodes / IPB;
    }
    SubsetCard(maps + {IBlock(sb, i)}, TruncLog(x, i));
  }

  /** The exact condition on the disk. */
  lemma TruncInBudgetIff(sb: Super)
    requires Layout(sb) && sb.ninodes > 0
    ensures (forall x: State, i: nat | FilesOk(x) && x.sb == sb && i < sb.ninodes :: |TruncLog(x, i)| <= MAXOPBLOCKS)
            <==> DataMaps(sb) < MAXOPBLOCKS
  {
    if DataMaps(sb) < MAXOPBLOCKS {
      forall x: State, i: nat | FilesOk(x) && x.sb == sb && i < sb.ninodes
        ensures |TruncLog(x, i)| <= MAXOPBLOCKS
      {
        TruncLogBound(x, i);
      }
    } else {
      SpreadIsOk(sb, 0);
      SpreadLogs(sb, 0);
      assert FilesOk(Spread(sb, 0)) && Spread(sb, 0).sb == sb;
    }
  }

  /** On a disk as mkfs lays it out, with the metadata in one bitmap block, that is a size of at most 36864 blocks. */
  lemma TruncSize(sb: Super)
    requires Layout(sb) && DataStart(sb) < BPB
    ensures DataMaps(sb) < MAXOPBLOCKS <==> sb.size <= 36864
  {
  }
}
