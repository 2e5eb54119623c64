/**
 Files of fs.c: the block map of an inode, truncation, and reads and writes of byte ranges.

 Every block slot of every inode is named by a pair (inode, k): k below 140 is the k-th block of the file, and k = 140
 is its indirect block. `owner` maps a block to the slot that holds it. The inode being worked on may differ in memory
 and on disk, as it does in the source between bmap and iupdate: `With` is the state that memory describes then, and
 `Whole` the state between operations, when the two agree. Operations run one at a time, each to its end; a panic ends
 the run.
 */
module Fs {
  import opened Common
  import opened Blocks
  import opened FsDisk

  /** The tables of the disk, with the inode being worked on as memory has it, and the owner of each block. */
  datatype State = State(sb: Super, inodes: seq<Dinode>, bits: seq<bool>, data: seq<Block>, owner: map<nat, (nat, nat)>)

  /** The block in slot k of an inode, 0 if there is none. */
  ghost function Slot(d: Dinode, data: seq<Block>, k: nat): (b: nat)
    requires |d.addrs| == NDIRECT + 1 && k <= MAXFILE
  {
    if k < NDIRECT then d.addrs[k]
    else if k == MAXFILE then d.addrs[NDIRECT]
    else if 0 < d.addrs[NDIRECT] < |data| && |data[d.addrs[NDIRECT]]| == BSIZE
    then Word(data[d.addrs[NDIRECT]], k - NDIRECT)
    else 0
  }

  ghost predicate Sized(x: State) {
    && Layout(x.sb) && |x.inodes| == x.sb.ninodes && |x.bits| == x.sb.size && |x.data| == x.sb.size
    && (forall i | 0 <= i < |x.inodes| :: Fits(x.inodes[i]))
    && (forall b | DataStart(x.sb) <= b < x.sb.size :: |x.data[b]| == BSIZE)
  }

  /** A block in a slot is a data block and that slot is its owner. */
  ghost predicate SlotOk(x: State, i: nat, k: nat)
    requires Sized(x) && i < |x.inodes| && k <= MAXFILE
  {
    var b := Slot(x.inodes[i], x.data, k);
    b != 0 ==> DataStart(x.sb) <= b < x.sb.size && b in x.owner && x.owner[b] == (i, k)
  }

  ghost predicate OwnerOk(x: State, b: nat)
    requires Sized(x) && b in x.owner
  {
    var (i, k) := x.owner[b];
    DataStart(x.sb) <= b < x.sb.size && i < |x.inodes| && k <= MAXFILE && Slot(x.inodes[i], x.data, k) == b
  }

  /** Each block is in the slot of its owner and in no other, and the free map marks the owned and the metadata blocks. */
  ghost predicate Owned(x: State) {
    && Sized(x)
    && (forall i: nat, k: nat | i < |x.inodes| && k <= MAXFILE :: SlotOk(x, i, k))
    && (forall b | b in x.owner :: OwnerOk(x, b))
    && (forall b: nat | b < x.sb.size :: x.bits[b] <==> b < DataStart(x.sb) || b in x.owner)
  }

  /** No block is in two slots. */
  lemma OneOwner(x: State, i: nat, k: nat, j: nat, l: nat)
    requires Owned(x) && i < |x.inodes| && k <= MAXFILE && j < |x.inodes| && l <= MAXFILE
    requires Slot(x.inodes[i], x.data, k) == Slot(x.inodes[j], x.data, l) != 0
    ensures i == j && k == l
  {
    assert SlotOk(x, i, k) && SlotOk(x, j, l);
  }

  /** The free map marks exactly the metadata blocks and the blocks in slots. */
  lemma MarkedIff(x: State, b: nat)
    requires Owned(x) && b < x.sb.size
    ensures x.bits[b] <==> b < DataStart(x.sb)
                           || exists i: nat, k: nat | i < |x.inodes| && k <= MAXFILE :: Slot(x.inodes[i], x.data, k) == b
  {
    if b in x.owner {
      var (i, k) := x.owner[b];
      assert OwnerOk(x, b) && Slot(x.inodes[i], x.data, k) == b;
    }
    if i: nat, k: nat :| i < |x.inodes| && k <= MAXFILE && Slot(x.inodes[i], x.data, k) == b {
      assert SlotOk(x, i, k);
    }
  }

  // Putting a fresh block into an empty slot.

  ghost predicate CanLink(x: State, i: nat, k: nat, b: nat) {
    && Owned(x) && i < |x.inodes| && k <= MAXFILE && Slot(x.inodes[i], x.data, k) == 0
    && (NDIRECT <= k < MAXFILE ==> x.inodes[i].addrs[NDIRECT] != 0)
    && DataStart(x.sb) <= b < x.sb.size && !x.bits[b]
  }

  /** The block is marked and zeroed by balloc, and its number stored in the inode or in the indirect block. */
  ghost function Link(x: State, i: nat, k: nat, b: nat): (y: State)
    requires CanLink(x, i, k, b)
  {
    var d := x.inodes[i];
    var a := d.addrs[NDIRECT];
    assert SlotOk(x, i, MAXFILE);
    if NDIRECT <= k < MAXFILE
    then x.(bits := x.bits[b := true], owner := x.owner[b := (i, k)],
            data := x.data[b := Zero()][a := SetWord(x.data[a], k - NDIRECT, b)])
    else x.(bits := x.bits[b := true], owner := x.owner[b := (i, k)], data := x.data[b := Zero()],
            inodes := x.inodes[i := d.(addrs := d.addrs[(if k < NDIRECT then k else NDIRECT) := b])])
  }

  lemma ZeroWord(k: nat)
    requires k < NINDIRECT
    ensures Word(Zero(), k) == 0
  {
  }

  /** Only that slot changes. */
  lemma LinkSlot(x: State, i: nat, k: nat, b: nat, j: nat, l: nat)
    requires CanLink(x, i, k, b) && j < |x.inodes| && l <= MAXFILE
    ensures var y := Link(x, i, k, b);
            |y.inodes[j].addrs| == NDIRECT + 1
            && Slot(y.inodes[j], y.data, l) == if (j, l) == (i, k) then b else Slot(x.inodes[j], x.data, l)
  {
    var y, a, c := Link(x, i, k, b), x.inodes[i].addrs[NDIRECT], x.inodes[j].addrs[NDIRECT];
    assert SlotOk(x, i, MAXFILE) && SlotOk(x, j, MAXFILE);
    if NDIRECT <= l < MAXFILE {
      ZeroWord(l - NDIRECT);
      if NDIRECT <= k < MAXFILE && a == c {
        assert i == j;
        SetWordWord(x.data[a], k - NDIRECT, b, l - NDIRECT);
      }
    }
  }

  lemma LinkKeeps(x: State, i: nat, k: nat, b: nat)
    requires CanLink(x, i, k, b)
    ensures Owned(Link(x, i, k, b))
  {
    var y := Link(x, i, k, b);
    assert SlotOk(x, i, MAXFILE);
    assert Sized(y);
    forall j: nat, l: nat | j < |y.inodes| && l <= MAXFILE
      ensures SlotOk(y, j, l)
    {
      assert SlotOk(x, j, l);
      LinkSlot(x, i, k, b, j, l);
    }
    forall c | c in y.owner
      ensures OwnerOk(y, c)
    {
      var (j, l) := y.owner[c];
      if c != b {
        assert OwnerOk(x, c);
      }
      LinkSlot(x, i, k, b, j, l);
    }
  }

  // What a call of bmap does.

  /** Slots of the file other than k keep their blocks; so do all other files; no block but the indirect block changes. */
  ghost predicate Grown(x: State, y: State, i: nat) {
    && Sized(x) && Sized(y) && y.sb == x.sb && i < |x.inodes|
    && y.inodes == x.inodes[i := x.inodes[i].(addrs := y.inodes[i].addrs)]
    && (forall c | c in x.owner :: c in y.owner && y.owner[c] == x.owner[c] && c < |x.data|
                                   && (x.owner[c] == (i, MAXFILE) || y.data[c] == x.data[c]))
  }

  ghost predicate Mapped(x: State, y: State, i: nat, bn: nat, b: nat) {
    && Grown(x, y, i) && bn < MAXFILE
    && b != 0 && Slot(y.inodes[i], y.data, bn) == b
    && (Slot(x.inodes[i], x.data, bn) != 0 ==> y == x)
    && (forall k: nat | k < MAXFILE && k != bn :: Slot(y.inodes[i], y.data, k) == Slot(x.inodes[i], x.data, k))
    && (var a := x.inodes[i].addrs[NDIRECT];
        if a != 0 || bn < NDIRECT then y.inodes[i].addrs[NDIRECT] == a else y.inodes[i].addrs[NDIRECT] != 0)
  }

  lemma LinkGrows(x: State, i: nat, k: nat, b: nat)
    requires CanLink(x, i, k, b)
    ensures Grown(x, Link(x, i, k, b), i)
  {
    LinkKeeps(x, i, k, b);
    var y := Link(x, i, k, b);
    assert SlotOk(x, i, MAXFILE);
    assert y.inodes == x.inodes[i := x.inodes[i].(addrs := y.inodes[i].addrs)];
  }

  /** A free slot filled. */
  lemma MapOne(x: State, i: nat, bn: nat, b: nat)
    requires CanLink(x, i, bn, b) && bn < MAXFILE
    ensures Mapped(x, Link(x, i, bn, b), i, bn, b)
  {
    LinkKeeps(x, i, bn, b);
    LinkGrows(x, i, bn, b);
    forall k: nat | k <= MAXFILE
      ensures Slot(Link(x, i, bn, b).inodes[i], Link(x, i, bn, b).data, k)
              == if k == bn then b else Slot(x.inodes[i], x.data, k)
    {
      LinkSlot(x, i, bn, b, i, k);
    }
  }

  /** The indirect block allocated first. */
  lemma MapTwo(x: State, y: State, i: nat, bn: nat, a: nat, b: nat)
    requires CanLink(x, i, MAXFILE, a) && y == Link(x, i, MAXFILE, a) && NDIRECT <= bn < MAXFILE
    requires CanLink(y, i, bn, b)
    ensures Mapped(x, Link(y, i, bn, b), i, bn, b)
  {
    MapOne(y, i, bn, b);
    LinkGrows(x, i, MAXFILE, a);
    forall k: nat | k < MAXFILE
      ensures Slot(y.inodes[i], y.data, k) == Slot(x.inodes[i], x.data, k)
    {
      LinkSlot(x, i, MAXFILE, a, i, k);
    }
  }

  /** The inode with an empty block number bn but an indirect block can be given a block there. */
  lemma IndirectEmpty(x: State, i: nat, bn: nat, a: nat)
    requires CanLink(x, i, MAXFILE, a) && NDIRECT <= bn < MAXFILE
    ensures var y := Link(x, i, MAXFILE, a); Slot(y.inodes[i], y.data, bn) == 0 && y.inodes[i].addrs[NDIRECT] == a
  {
    LinkSlot(x, i, MAXFILE, a, i, bn);
  }

  ghost function Indirect(d: Dinode): set<nat>
    requires |d.addrs| == NDIRECT + 1
  {
    if d.addrs[NDIRECT] == 0 then {} else {d.addrs[NDIRECT]}
  }

  lemma TwoLogged(before: set<nat>, logged: set<nat>, p: nat, a: nat, q: nat, b: nat)
    requires logged == before + {p, a} + {q, b, a}
    ensures logged <= before + {p, q} + {b} + {a} && |{p, q}| <= 2
  {
    assert {p, q} == {p} + {q};
  }

  /** The number of blocks that an empty block bn of the file takes. */
  ghost function Needs(d: Dinode, bn: nat): nat
    requires |d.addrs| == NDIRECT + 1
  {
    if NDIRECT <= bn && d.addrs[NDIRECT] == 0 then 2 else 1
  }

  /** The number of blocks a call of bmap allocated: one for the slot, which held b, and one for the indirect block. */
  ghost function Allocated(d: Dinode, e: Dinode, b: nat): nat
    requires |d.addrs| == NDIRECT + 1 && |e.addrs| == NDIRECT + 1
  {
    (if b == 0 then 1 else 0) + |Indirect(e) - Indirect(d)|
  }

  // The bytes of a file.

  const MAXSIZE := MAXFILE * BSIZE

  ghost function ByteAt(d: Dinode, data: seq<Block>, p: nat): byte
    requires |d.addrs| == NDIRECT + 1 && p < MAXSIZE
  {
    var b := Slot(d, data, p / BSIZE);
    if b < |data| && |data[b]| == BSIZE then data[b][p % BSIZE] else 0
  }

  ghost function Bytes(d: Dinode, data: seq<Block>): (s: seq<byte>)
    requires |d.addrs| == NDIRECT + 1 && d.size <= MAXSIZE
    ensures |s| == d.size && forall p | 0 <= p < |s| :: s[p] == ByteAt(d, data, p)
  {
    seq(d.size, p requires 0 <= p < d.size => ByteAt(d, data, p))
  }

  /** The file has exactly the blocks that n bytes from its start need: no holes and nothing spare. */
  ghost predicate SlotsTo(d: Dinode, data: seq<Block>, n: nat)
    requires |d.addrs| == NDIRECT + 1
  {
    && (forall k: nat | k < MAXFILE :: Slot(d, data, k) != 0 <==> k * BSIZE < n)
    && (d.addrs[NDIRECT] != 0 <==> NDIRECT * BSIZE < n)
  }

  ghost predicate Shape(d: Dinode, data: seq<Block>) {
    Fits(d) && d.size <= MAXSIZE && SlotsTo(d, data, d.size) && (d.kind == 0 ==> d.size == 0)
  }

  ghost predicate FilesOk(x: State) {
    Owned(x) && forall j | 0 <= j < |x.inodes| :: Shape(x.inodes[j], x.data)
  }

  /** Nothing of a file other than i has changed. */
  ghost predicate Others(x: State, y: State, i: nat) {
    && Sized(x) && Sized(y) && y.sb == x.sb && i < |x.inodes|
    && (forall j | 0 <= j < |x.inodes| && j != i :: y.inodes[j] == x.inodes[j])
    && (forall c | c in x.owner && x.owner[c].0 != i ::
          c in y.owner && y.owner[c] == x.owner[c] && c < |x.data| && y.data[c] == x.data[c])
  }

  lemma OtherSlot(x: State, y: State, i: nat, j: nat, k: nat)
    requires Owned(x) && Others(x, y, i) && j < |x.inodes| && j != i && k <= MAXFILE
    ensures Slot(y.inodes[j], y.data, k) == Slot(x.inodes[j], x.data, k)
  {
    assert SlotOk(x, j, MAXFILE);
  }

  lemma OtherFile(x: State, y: State, i: nat, j: nat)
    requires FilesOk(x) && Others(x, y, i) && j < |x.inodes| && j != i
    ensures y.inodes[j] == x.inodes[j] && Shape(y.inodes[j], y.data)
    ensures Bytes(y.inodes[j], y.data) == Bytes(x.inodes[j], x.data)
  {
    forall k: nat | k < MAXFILE
      ensures Slot(y.inodes[j], y.data, k) == Slot(x.inodes[j], x.data, k)
    {
      OtherSlot(x, y, i, j, k);
    }
    forall p: nat | p < x.inodes[j].size
      ensures ByteAt(y.inodes[j], y.data, p) == ByteAt(x.inodes[j], x.data, p)
    {
      assert SlotOk(x, j, p / BSIZE);
    }
  }

  lemma OthersTrans(x: State, y: State, z: State, i: nat)
    requires Others(x, y, i) && Others(y, z, i)
    ensures Others(x, z, i)
  {
  }

  // One piece of a write.

  function Splice(x: Block, o: nat, piece: seq<byte>): (y: Block)
    requires o + |piece| <= |x|
    ensures |y| == |x|
  {
    x[..o] + piece + x[o + |piece|..]
  }

  /** The data of a file's block is replaced. */
  lemma PutData(y: State, i: nat, bn: nat, b: nat, t: Block)
    requires Owned(y) && i < |y.inodes| && bn < MAXFILE && Slot(y.inodes[i], y.data, bn) == b != 0 && |t| == BSIZE
    ensures b < |y.data|
    ensures var z := y.(data := y.data[b := t]);
            && Owned(z) && Others(y, z, i)
            && (forall k: nat | k <= MAXFILE :: Slot(z.inodes[i], z.data, k) == Slot(y.inodes[i], y.data, k))
            && (forall p: nat | p < MAXSIZE ::
                  ByteAt(z.inodes[i], z.data, p) == if p / BSIZE == bn then t[p % BSIZE] else ByteAt(y.inodes[i], y.data, p))
  {
    assert SlotOk(y, i, bn);
    var z := y.(data := y.data[b := t]);
    forall j: nat, k: nat | j < |y.inodes| && k <= MAXFILE
      ensures Slot(z.inodes[j], z.data, k) == Slot(y.inodes[j], y.data, k) && SlotOk(z, j, k)
    {
      assert SlotOk(y, j, MAXFILE) && SlotOk(y, j, k);
    }
    forall c | c in z.owner
      ensures OwnerOk(z, c)
    {
      var (j, k) := z.owner[c];
      assert OwnerOk(y, c) && Slot(z.inodes[j], z.data, k) == Slot(y.inodes[j], y.data, k);
    }
    forall p: nat | p < MAXSIZE
      ensures ByteAt(z.inodes[i], z.data, p) == if p / BSIZE == bn then t[p % BSIZE] else ByteAt(y.inodes[i], y.data, p)
    {
      assert SlotOk(y, i, p / BSIZE);
    }
  }

  /** bmap leaves the bytes of the file's blocks as they were. */
  lemma MappedByte(x: State, y: State, i: nat, bn: nat, b: nat, p: nat)
    requires Owned(x) && Mapped(x, y, i, bn, b) && p < MAXSIZE && Slot(x.inodes[i], x.data, p / BSIZE) != 0
    ensures ByteAt(y.inodes[i], y.data, p) == ByteAt(x.inodes[i], x.data, p)
  {
    assert SlotOk(x, i, p / BSIZE);
  }

  /** What writing one piece, which lies in one block, does. */
  ghost predicate Piece(x: State, z: State, i: nat, off: nat, piece: seq<byte>) {
    && Others(x, z, i) && 1 <= |piece| && off % BSIZE + |piece| <= BSIZE && off < MAXSIZE
    && z.inodes[i] == x.inodes[i].(addrs := z.inodes[i].addrs)
    && (forall k: nat | k < MAXFILE && k != off / BSIZE :: Slot(z.inodes[i], z.data, k) == Slot(x.inodes[i], x.data, k))
    && Slot(z.inodes[i], z.data, off / BSIZE) != 0
    && (Slot(x.inodes[i], x.data, off / BSIZE) != 0 ==> z.inodes == x.inodes)
    && (z.inodes[i].addrs[NDIRECT] != 0 <==> x.inodes[i].addrs[NDIRECT] != 0 || off / BSIZE >= NDIRECT)
    && (x.inodes[i].addrs[NDIRECT] != 0 ==> z.inodes[i].addrs[NDIRECT] == x.inodes[i].addrs[NDIRECT])
    && PieceBytes(x.inodes[i], x.data, z.inodes[i], z.data, off, piece)
  }

  ghost predicate PieceBytes(d: Dinode, data: seq<Block>, e: Dinode, to: seq<Block>, off: nat, piece: seq<byte>)
    requires |d.addrs| == NDIRECT + 1 && |e.addrs| == NDIRECT + 1
  {
    && (forall p: nat | off <= p < off + |piece| && p < MAXSIZE :: ByteAt(e, to, p) == piece[p - off])
    && (forall p: nat | p < MAXSIZE && !(off <= p < off + |piece|) && Slot(d, data, p / BSIZE) != 0 ::
          ByteAt(e, to, p) == ByteAt(d, data, p))
  }

  lemma MapAndPutBytes(x: State, y: State, i: nat, off: nat, piece: seq<byte>, b: nat)
    requires Owned(x) && Owned(y) && Mapped(x, y, i, off / BSIZE, b) && b < |y.data| && |y.data[b]| == BSIZE
    requires 1 <= |piece| && off % BSIZE + |piece| <= BSIZE && off < MAXSIZE
    ensures PieceBytes(x.inodes[i], x.data, y.inodes[i], y.data[b := Splice(y.data[b], off % BSIZE, piece)], off, piece)
  {
    var t := Splice(y.data[b], off % BSIZE, piece);
    PutData(y, i, off / BSIZE, b, t);
    var e, to := y.inodes[i], y.data[b := t];
    forall p: nat | p < MAXSIZE && !(off <= p < off + |piece|) && Slot(x.inodes[i], x.data, p / BSIZE) != 0
      ensures ByteAt(e, to, p) == ByteAt(x.inodes[i], x.data, p)
    {
      MappedByte(x, y, i, off / BSIZE, b, p);
    }
  }

  lemma MapAndPut(x: State, y: State, i: nat, off: nat, piece: seq<byte>, b: nat)
    requires Owned(x) && Owned(y) && Mapped(x, y, i, off / BSIZE, b) && b < |y.data| && |y.data[b]| == BSIZE
    requires 1 <= |piece| && off % BSIZE + |piece| <= BSIZE && off < MAXSIZE
    ensures Piece(x, y.(data := y.data[b := Splice(y.data[b], off % BSIZE, piece)]), i, off, piece)
  {
    MapAndPutBytes(x, y, i, off, piece, b);
    var t := Splice(y.data[b], off % BSIZE, piece);
    var z := y.(data := y.data[b := t]);
    PutData(y, i, off / BSIZE, b, t);
    assert SlotOk(x, i, MAXFILE);
    assert Others(x, y, i);
    OthersTrans(x, y, z, i);
  }

  // A whole write, piece after piece.

  function Max(a: nat, b: nat): nat {
    if a < b then b else a
  }

  /** Blocks needed for n bytes. */
  function BlocksFor(n: nat): nat {
    (n + BSIZE - 1) / BSIZE
  }

  lemma PieceSlots(x: State, z: State, i: nat, off: nat, piece: seq<byte>, n: nat, to: nat)
    requires Owned(x) && Piece(x, z, i, off, piece) && off <= n <= MAXSIZE && to == Max(n, off + |piece|)
    requires SlotsTo(x.inodes[i], x.data, n)
    ensures SlotsTo(z.inodes[i], z.data, to)
    ensures BlocksFor(to) - BlocksFor(n) == if Slot(x.inodes[i], x.data, off / BSIZE) == 0 then 1 else 0
    ensures off + |piece| <= n ==> z.inodes == x.inodes
  {
  }

  /** The first tot bytes of src are written at off over c. */
  ghost predicate Written(c: seq<byte>, d: Dinode, data: seq<Block>, off: nat, src: seq<byte>, tot: nat)
    requires |d.addrs| == NDIRECT + 1 && off <= |c| <= MAXSIZE && tot <= |src| && off + tot <= MAXSIZE
  {
    forall p: nat | p < Max(|c|, off + tot) :: ByteAt(d, data, p) == if off <= p < off + tot then src[p - off] else c[p]
  }

  lemma PieceWritten(x: State, z: State, i: nat, c: seq<byte>, off: nat, src: seq<byte>, tot: nat, to: nat, cur: nat,
                     piece: seq<byte>)
    requires Owned(x) && off <= |c| <= MAXSIZE && tot < to <= |src| && off + |src| <= MAXSIZE
    requires cur == off + tot && piece == src[tot..to] && Piece(x, z, i, cur, piece)
    requires SlotsTo(x.inodes[i], x.data, Max(|c|, cur))
    requires Written(c, x.inodes[i], x.data, off, src, tot)
    ensures Written(c, z.inodes[i], z.data, off, src, to)
  {
    forall p: nat | p < Max(|c|, off + to)
      ensures ByteAt(z.inodes[i], z.data, p) == if off <= p < off + to then src[p - off] else c[p]
    {
      if !(cur <= p < off + to) {
        assert p / BSIZE * BSIZE < Max(|c|, cur);
        assert Slot(x.inodes[i], x.data, p / BSIZE) != 0;
      }
    }
  }

  /** What a write means for the bytes of the file: c with src in place of the bytes from off on. */
  function Overwrite(c: seq<byte>, off: nat, src: seq<byte>): (w: seq<byte>)
    requires off <= |c|
    ensures |w| == Max(|c|, off + |src|)
  {
    c[..off] + src + (if off + |src| < |c| then c[off + |src|..] else [])
  }

  lemma OverwriteAt(c: seq<byte>, off: nat, src: seq<byte>, p: nat)
    requires off <= |c| && p < Max(|c|, off + |src|)
    ensures Overwrite(c, off, src)[p] == if off <= p < off + |src| then src[p - off] else c[p]
  {
  }

  lemma WrittenAll(c: seq<byte>, d: Dinode, data: seq<Block>, off: nat, src: seq<byte>)
    requires |d.addrs| == NDIRECT + 1 && off <= |c| <= MAXSIZE && off + |src| <= MAXSIZE
    requires Written(c, d, data, off, src, |src|) && d.size == Max(|c|, off + |src|)
    ensures Bytes(d, data) == Overwrite(c, off, src)
  {
    forall p: nat | p < d.size
      ensures Bytes(d, data)[p] == Overwrite(c, off, src)[p]
    {
      assert ByteAt(d, data, p) == if off <= p < off + |src| then src[p - off] else c[p];
    }
  }

  /** Blocks that hold the n bytes from off. */
  function Touched(off: nat, n: nat): nat {
    if n == 0 then 0 else (off + n - 1) / BSIZE - off / BSIZE + 1
  }

  /** The loop of writei has written tot bytes over c, the bytes of file i in x. */
  ghost predicate Progress(x: State, y: State, i: nat, c: seq<byte>, off: nat, src: seq<byte>, tot: nat) {
    && Others(x, y, i) && tot <= |src|
    && y.inodes[i] == x.inodes[i].(addrs := y.inodes[i].addrs)
    && off <= |c| == x.inodes[i].size <= MAXSIZE && off + |src| <= MAXSIZE
    && SlotsTo(y.inodes[i], y.data, Max(|c|, off + tot))
    && Written(c, y.inodes[i], y.data, off, src, tot)
    && (off + tot <= |c| ==> y.inodes == x.inodes)
    && (x.inodes[i].addrs[NDIRECT] != 0 ==> y.inodes[i].addrs[NDIRECT] == x.inodes[i].addrs[NDIRECT])
  }

  lemma ProgressStep(x: State, y: State, z: State, i: nat, c: seq<byte>, off: nat, src: seq<byte>, tot: nat, to: nat,
                     cur: nat, piece: seq<byte>)
    requires Owned(y) && Progress(x, y, i, c, off, src, tot)
    requires tot < to <= |src| && cur == off + tot && piece == src[tot..to] && Piece(y, z, i, cur, piece)
    ensures Progress(x, z, i, c, off, src, to)
    ensures BlocksFor(Max(|c|, off + to)) - BlocksFor(Max(|c|, off + tot))
            == if Slot(y.inodes[i], y.data, cur / BSIZE) == 0 then 1 else 0
  {
    PieceSlots(y, z, i, cur, piece, Max(|c|, cur), Max(|c|, off + to));
    PieceWritten(y, z, i, c, off, src, tot, to, cur, piece);
    OthersTrans(x, y, z, i);
  }

  ghost function Resized(y: State, i: nat, n: nat): (z: State)
    requires i < |y.inodes|
  {
    y.(inodes := y.inodes[i := y.inodes[i].(size := n)])
  }

  lemma ResizedOwned(y: State, i: nat, n: nat)
    requires Owned(y) && i < |y.inodes| && n < UINT
    ensures Owned(Resized(y, i, n))
  {
    var z := Resized(y, i, n);
    forall j: nat, k: nat | j < |z.inodes| && k <= MAXFILE
      ensures SlotOk(z, j, k)
    {
      assert SlotOk(y, j, k);
    }
    forall b | b in z.owner
      ensures OwnerOk(z, b)
    {
      var (j, k) := z.owner[b];
      assert OwnerOk(y, b) && Slot(z.inodes[j], z.data, k) == Slot(y.inodes[j], y.data, k);
    }
  }

  /** What the write did, once its loop is over and the size is set. */
  ghost predicate WriteDone(x: State, z: State, i: nat, off: nat, src: seq<byte>)
    requires FilesOk(x) && i < |x.inodes| && off <= x.inodes[i].size
  {
    && FilesOk(z) && |z.inodes| == |x.inodes|
    && Bytes(z.inodes[i], z.data) == Overwrite(Bytes(x.inodes[i], x.data), off, src)
    && z.inodes[i] == x.inodes[i].(size := z.inodes[i].size, addrs := z.inodes[i].addrs)
    && (forall j | 0 <= j < |x.inodes| && j != i ::
          z.inodes[j] == x.inodes[j] && Bytes(z.inodes[j], z.data) == Bytes(x.inodes[j], x.data))
  }

  lemma WriteEnds(x: State, y: State, i: nat, off: nat, src: seq<byte>)
    requires FilesOk(x) && i < |x.inodes| && x.inodes[i].kind != 0
    requires Owned(y) && Progress(x, y, i, Bytes(x.inodes[i], x.data), off, src, |src|)
    ensures WriteDone(x, Resized(y, i, Max(x.inodes[i].size, off + |src|)), i, off, src)
  {
    var n := Max(x.inodes[i].size, off + |src|);
    var z := Resized(y, i, n);
    ResizedOwned(y, i, n);
    assert forall p: nat | p < n :: ByteAt(z.inodes[i], z.data, p) == ByteAt(y.inodes[i], y.data, p);
    WrittenAll(Bytes(x.inodes[i], x.data), z.inodes[i], z.data, off, src);
    assert Shape(z.inodes[i], z.data) by {
      assert forall k: nat | k < MAXFILE :: Slot(z.inodes[i], z.data, k) == Slot(y.inodes[i], y.data, k);
    }
    forall j: nat | j < |x.inodes| && j != i
      ensures z.inodes[j] == x.inodes[j] && Shape(z.inodes[j], z.data)
              && Bytes(z.inodes[j], z.data) == Bytes(x.inodes[j], x.data)
    {
      OtherFile(x, y, i, j);
    }
  }

  lemma WriteDoneSame(x: State, z: State, w: State, i: nat, off: nat, src: seq<byte>)
    requires FilesOk(x) && i < |x.inodes| && off <= x.inodes[i].size && WriteDone(x, z, i, off, src) && w == z
    ensures WriteDone(x, w, i, off, src)
  {
  }

  /** The blocks logged so far, sorted by what they hold, and how many there are of each kind. */
  ghost predicate LogBound(d: Dinode, e: Dinode, before: set<nat>, logged: set<nat>, bm: set<nat>, ds: set<nat>,
                           off: nat, tot: nat)
    requires |d.addrs| == NDIRECT + 1 && |e.addrs| == NDIRECT + 1
  {
    && logged <= before + bm + ds + Indirect(e)
    && |ds| <= Touched(off, tot)
    && |bm| <= BlocksFor(Max(d.size, off + tot)) - BlocksFor(d.size) + |Indirect(e) - Indirect(d)|
  }

  /** The next piece is the first or starts a block. */
  ghost predicate AtEdge(off: nat, tot: nat) {
    tot == 0 || (off + tot) % BSIZE == 0
  }

  lemma TouchedStep(off: nat, tot: nat, m: nat)
    requires m >= 1 && AtEdge(off, tot)
    ensures Touched(off, tot) + 1 <= Touched(off, tot + m)
  {
  }

  /** Where the next piece ends: at the end of its block or of the n bytes. */
  function PieceEnd(off: nat, tot: nat, n: nat): (to: nat)
    requires tot < n
    ensures tot < to <= n && (off + tot) % BSIZE + (to - tot) <= BSIZE && (to < n ==> AtEdge(off, to))
  {
    var o := (off + tot) % BSIZE;
    tot + (if n - tot < BSIZE - o then n - tot else BSIZE - o)
  }

  lemma LogStep(d: Dinode, e: Dinode, g: Dinode, before: set<nat>, lg: set<nat>, logged: set<nat>, bm: set<nat>,
                ds: set<nat>, bm1: set<nat>, b: nat, slot: nat, off: nat, tot: nat, to: nat)
    requires |d.addrs| == NDIRECT + 1 && |e.addrs| == NDIRECT + 1 && |g.addrs| == NDIRECT + 1 && tot < to
    requires LogBound(d, e, before, lg, bm, ds, off, tot)
    requires d.addrs[NDIRECT] != 0 ==> e.addrs[NDIRECT] == d.addrs[NDIRECT]
    requires e.addrs[NDIRECT] != 0 ==> g.addrs[NDIRECT] == e.addrs[NDIRECT]
    requires AtEdge(off, tot)
    requires logged <= lg + bm1 + {b} + Indirect(g) && |bm1| <= Allocated(e, g, slot)
    requires BlocksFor(Max(d.size, off + to)) - BlocksFor(Max(d.size, off + tot)) == if slot == 0 then 1 else 0
    ensures LogBound(d, g, before, logged, bm + bm1, ds + {b}, off, to)
  {
    assert |Indirect(g) - Indirect(d)| == |Indirect(e) - Indirect(d)| + |Indirect(g) - Indirect(e)| by {
      if d.addrs[NDIRECT] != 0 {
        assert Indirect(e) - Indirect(d) == {} && Indirect(g) - Indirect(e) == {} && Indirect(g) - Indirect(d) == {};
      } else if e.addrs[NDIRECT] != 0 {
        assert Indirect(e) - Indirect(d) == Indirect(e) && Indirect(g) - Indirect(e) == {};
        assert Indirect(g) - Indirect(d) == Indirect(e);
      } else {
        assert Indirect(g) - Indirect(e) == Indirect(g) == Indirect(g) - Indirect(d) && Indirect(e) - Indirect(d) == {};
      }
    }
    TouchedStep(off, tot, to - tot);
    assert |ds + {b}| <= |ds| + 1;
    assert |bm + bm1| <= |bm| + |bm1|;
  }

  lemma FilesOkSame(z: State, w: State)
    requires FilesOk(z) && w == z
    ensures FilesOk(w)
  {
  }

  // Counting blocks.

  /** The number of blocks that a file of n bytes holds, its indirect block included. */
  function Held(n: nat): nat {
    BlocksFor(n) + if NDIRECT * BSIZE < n then 1 else 0
  }

  /** Fewer blocks are free than a file of size bytes lacks for bytes up to `to`. */
  ghost predicate Short(bits: seq<bool>, size: nat, to: nat) {
    FreeBlocks(bits) + Held(size) < Held(Max(size, to))
  }

  /** What one file gained in blocks the free map has lost. */
  ghost predicate Spent(bits: seq<bool>, size: nat, bits': seq<bool>, size': nat) {
    FreeBlocks(bits) + Held(size) == FreeBlocks(bits') + Held(size')
  }

  /** The blocks in the first m slots of inode i. */
  ghost function OwnedTo(x: State, i: nat, m: nat): set<nat> {
    set b | b in x.owner && x.owner[b].0 == i && x.owner[b].1 < m
  }

  lemma OwnedNext(x: State, i: nat, m: nat)
    requires Owned(x) && i < |x.inodes| && m <= MAXFILE
    ensures var b := Slot(x.inodes[i], x.data, m);
            && b !in OwnedTo(x, i, m)
            && OwnedTo(x, i, m + 1) == if b == 0 then OwnedTo(x, i, m) else OwnedTo(x, i, m) + {b}
  {
    var b := Slot(x.inodes[i], x.data, m);
    assert SlotOk(x, i, m);
    forall c | c in x.owner
      ensures OwnerOk(x, c) && c != 0 && (x.owner[c] == (i, m) <==> c == b)
    {
      assert OwnerOk(x, c);
    }
  }

  lemma BlockBelow(k: nat, n: nat)
    ensures k * BSIZE < n <==> k < BlocksFor(n)
  {
  }

  lemma OwnedStep(x: State, i: nat, n: nat, m: nat)
    requires Owned(x) && i < |x.inodes| && SlotsTo(x.inodes[i], x.data, n) && m < MAXFILE
    ensures |OwnedTo(x, i, m + 1)| == |OwnedTo(x, i, m)| + if m < BlocksFor(n) then 1 else 0
  {
    OwnedNext(x, i, m);
    BlockBelow(m, n);
    assert Slot(x.inodes[i], x.data, m) != 0 <==> m * BSIZE < n;
  }

  lemma {:induction false} OwnedCount(x: State, i: nat, n: nat, m: nat)
    requires Owned(x) && i < |x.inodes| && SlotsTo(x.inodes[i], x.data, n) && m <= MAXFILE
    ensures |OwnedTo(x, i, m)| == if m < BlocksFor(n) then m else BlocksFor(n)
  {
    if m == 0 {
      assert OwnedTo(x, i, 0) == {};
    } else {
      OwnedCount(x, i, n, m - 1);
      OwnedStep(x, i, n, m - 1);
    }
  }

  /** A file whose blocks are those of n bytes owns as many as that. */
  lemma OwnedAll(x: State, i: nat, n: nat)
    requires Owned(x) && i < |x.inodes| && SlotsTo(x.inodes[i], x.data, n) && n <= MAXSIZE
    ensures |OwnedTo(x, i, MAXFILE + 1)| == Held(n)
  {
    OwnedCount(x, i, n, MAXFILE);
    OwnedNext(x, i, MAXFILE);
  }

  /** The data blocks that no file but i owns. */
  ghost function Rest(x: State, i: nat): set<nat>
    requires DataStart(x.sb) <= x.sb.size
  {
    set b | DataStart(x.sb) <= b < x.sb.size && !(b in x.owner && x.owner[b].0 != i)
  }

  lemma RestSplit(x: State, i: nat)
    requires Owned(x) && i < |x.inodes|
    ensures |Rest(x, i)| == FreeBlocks(x.bits) + |OwnedTo(x, i, MAXFILE + 1)|
  {
    var free := set b | 0 <= b < |x.bits| && !x.bits[b];
    var mine := OwnedTo(x, i, MAXFILE + 1);
    forall b | b in x.owner
      ensures DataStart(x.sb) <= b < x.sb.size && x.owner[b].1 <= MAXFILE
    {
      assert OwnerOk(x, b);
    }
    assert Rest(x, i) == free + mine && free !! mine;
  }

  lemma RestSame(x: State, y: State, i: nat)
    requires Owned(x) && Owned(y) && Others(x, y, i)
    ensures Rest(x, i) == Rest(y, i)
  {
    forall b | b in y.owner && y.owner[b].0 != i
      ensures b in x.owner && x.owner[b] == y.owner[b]
    {
      var (j, k) := y.owner[b];
      assert OwnerOk(y, b);
      OtherSlot(x, y, i, j, k);
      assert SlotOk(x, j, k);
    }
  }

  /** Conservation: what file i takes the free map loses, and what it gives back the free map gains. */
  lemma FreeChange(x: State, y: State, i: nat, n: nat, m: nat)
    requires Owned(x) && Owned(y) && Others(x, y, i) && n <= MAXSIZE && m <= MAXSIZE
    requires SlotsTo(x.inodes[i], x.data, n) && SlotsTo(y.inodes[i], y.data, m)
    ensures FreeBlocks(x.bits) + Held(n) == FreeBlocks(y.bits) + Held(m)
  {
    OwnedAll(x, i, n);
    OwnedAll(y, i, m);
    RestSplit(x, i);
    RestSplit(y, i);
    RestSame(x, y, i);
  }

  /** The block that bmap could not give is one that the whole write needs. */
  lemma ShortHere(x: State, y: State, i: nat, c: seq<byte>, off: nat, src: seq<byte>, tot: nat, cur: nat, bn: nat)
    requires Owned(x) && Owned(y) && Progress(x, y, i, c, off, src, tot) && Progress(x, x, i, c, off, src, 0)
    requires tot < |src| && cur == off + tot && bn == cur / BSIZE
    requires Slot(y.inodes[i], y.data, bn) == 0 && FreeBlocks(y.bits) < Needs(y.inodes[i], bn)
    ensures Short(x.bits, |c|, off + |src|)
  {
    FreeChange(x, y, i, |c|, Max(|c|, cur));
    assert bn < MAXFILE && cur == bn * BSIZE && |c| <= cur;
    HeldNext(bn, off + |src|);
  }

  /** A write that came to its end took the blocks it needs. */
  lemma WriteFits(x: State, y: State, i: nat, off: nat, src: seq<byte>, n: nat)
    requires FilesOk(x) && i < |x.inodes| && Owned(y)
    requires Progress(x, y, i, Bytes(x.inodes[i], x.data), off, src, |src|)
    requires n == Max(x.inodes[i].size, off + |src|)
    ensures Spent(x.bits, x.inodes[i].size, y.bits, n) && !Short(x.bits, x.inodes[i].size, off + |src|)
  {
    FreeChange(x, y, i, x.inodes[i].size, n);
  }

  lemma HeldNext(bn: nat, to: nat)
    requires bn * BSIZE < to
    ensures Held(to) >= Held(bn * BSIZE) + if bn == NDIRECT then 2 else 1
  {
  }

  // Truncation.

  /** The free map after the blocks in the first k slots of inode i are freed. */
  ghost function Freed(x: State, i: nat, k: nat): (bits: seq<bool>)
    ensures |bits| == |x.bits|
  {
    seq(|x.bits|, b requires 0 <= b < |x.bits| =>
      x.bits[b] && !(b in x.owner && x.owner[b].0 == i && x.owner[b].1 < k))
  }

  /** The block in the next slot is still marked, and clearing its bit frees that slot's block only. */
  lemma FreedNext(x: State, i: nat, k: nat)
    requires Owned(x) && i < |x.inodes| && k <= MAXFILE
    ensures var b := Slot(x.inodes[i], x.data, k);
            if b == 0 then Freed(x, i, k + 1) == Freed(x, i, k)
            else b < x.sb.size && Freed(x, i, k)[b] && Freed(x, i, k + 1) == Freed(x, i, k)[b := false]
  {
    var b := Slot(x.inodes[i], x.data, k);
    assert SlotOk(x, i, k);
    forall c | c in x.owner
      ensures x.owner[c] == (i, k) <==> c == b
    {
      assert OwnerOk(x, c);
    }
    FreedBit(x, i, k, b);
  }

  lemma FreedBit(x: State, i: nat, k: nat, b: nat)
    requires forall c | c in x.owner :: x.owner[c] == (i, k) <==> c == b
    requires b in x.owner ==> b < |x.bits| && x.bits[b]
    ensures b !in x.owner ==> Freed(x, i, k + 1) == Freed(x, i, k)
    ensures b in x.owner ==> Freed(x, i, k)[b] && Freed(x, i, k + 1) == Freed(x, i, k)[b := false]
  {
  }

  /** Without an indirect block there is nothing to free below it. */
  lemma FreedNoIndirect(x: State, i: nat)
    requires Owned(x) && i < |x.inodes| && x.inodes[i].addrs[NDIRECT] == 0
    ensures Freed(x, i, MAXFILE + 1) == Freed(x, i, NDIRECT)
  {
    forall c | c in x.owner && x.owner[c].0 == i
      ensures x.owner[c].1 < NDIRECT
    {
      assert OwnerOk(x, c);
    }
  }

  function NoBlocks(): (a: seq<nat>)
    ensures |a| == NDIRECT + 1
  {
    seq(NDIRECT + 1, j => 0)
  }

  /** Inode i emptied, and its blocks without an owner. */
  ghost function Truncated(x: State, i: nat): (y: State)
    requires i < |x.inodes|
  {
    x.(inodes := x.inodes[i := x.inodes[i].(size := 0, addrs := NoBlocks())],
       bits := Freed(x, i, MAXFILE + 1),
       owner := map b | b in x.owner && x.owner[b].0 != i :: x.owner[b])
  }

  lemma TruncOwned(x: State, i: nat)
    requires FilesOk(x) && i < |x.inodes|
    ensures Owned(Truncated(x, i)) && Others(x, Truncated(x, i), i)
  {
    var y := Truncated(x, i);
    assert Fits(y.inodes[i]);
    forall j: nat, k: nat | j < |y.inodes| && k <= MAXFILE
      ensures SlotOk(y, j, k)
    {
      assert SlotOk(x, j, k);
    }
    forall b | b in x.owner
      ensures b < |x.data| && x.owner[b].1 <= MAXFILE && (b in y.owner ==> OwnerOk(y, b))
    {
      assert OwnerOk(x, b);
    }
  }

  /** Truncation frees exactly the blocks of the inode and touches no other file. */
  lemma TruncKeeps(x: State, i: nat)
    requires FilesOk(x) && i < |x.inodes|
    ensures var y := Truncated(x, i);
            && FilesOk(y) && Bytes(y.inodes[i], y.data) == []
            && (forall b: nat | b < x.sb.size :: y.bits[b] <==> x.bits[b] && !(b in x.owner && x.owner[b].0 == i))
            && (forall j | 0 <= j < |x.inodes| && j != i ::
                  y.inodes[j] == x.inodes[j] && Bytes(y.inodes[j], y.data) == Bytes(x.inodes[j], x.data))
  {
    var y := Truncated(x, i);
    TruncOwned(x, i);
    forall b | b in x.owner
      ensures x.owner[b].1 <= MAXFILE
    {
      assert OwnerOk(x, b);
    }
    assert Shape(y.inodes[i], y.data);
    forall j: nat | j < |x.inodes| && j != i
      ensures y.inodes[j] == x.inodes[j] && Shape(y.inodes[j], y.data)
              && Bytes(y.inodes[j], y.data) == Bytes(x.inodes[j], x.data)
    {
      OtherFile(x, y, i, j);
    }
  }

  /** Truncation gives back the blocks that the file held. */
  lemma TruncFrees(x: State, i: nat)
    requires FilesOk(x) && i < |x.inodes|
    ensures FreeBlocks(Truncated(x, i).bits) == FreeBlocks(x.bits) + Held(x.inodes[i].size)
  {
    TruncOwned(x, i);
    FreeChange(x, Truncated(x, i), i, x.inodes[i].size, 0);
  }

  // What truncation logs.

  /** The bitmap blocks of the blocks in the first m slots of inode i. */
  ghost function MapBlocks(x: State, i: nat, m: nat): set<nat> {
    set b | b in OwnedTo(x, i, m) :: BBlock(x.sb, b)
  }

  /** What `itrunc` of inode i logs: bitmap blocks, and the inode's own block. */
  ghost function TruncLog(x: State, i: nat): set<nat> {
    MapBlocks(x, i, MAXFILE + 1) + {IBlock(x.sb, i)}
  }

  lemma MapBlocksNext(x: State, i: nat, m: nat)
    requires Owned(x) && i < |x.inodes| && m <= MAXFILE
    ensures var b := Slot(x.inodes[i], x.data, m);
            MapBlocks(x, i, m + 1) == MapBlocks(x, i, m) + if b == 0 then {} else {BBlock(x.sb, b)}
  {
    OwnedNext(x, i, m);
  }

  lemma MapBlocksNoIndirect(x: State, i: nat)
    requires Owned(x) && i < |x.inodes| && x.inodes[i].addrs[NDIRECT] == 0
    ensures MapBlocks(x, i, MAXFILE + 1) == MapBlocks(x, i, NDIRECT)
  {
    forall c | c in x.owner && x.owner[c].0 == i
      ensures x.owner[c].1 < NDIRECT
    {
      assert OwnerOk(x, c);
    }
    assert OwnedTo(x, i, MAXFILE + 1) == OwnedTo(x, i, NDIRECT);
  }

  /** The number of bitmap blocks that have bits of data blocks. */
  function DataMaps(sb: Super): int {
    (sb.size - 1) / BPB - DataStart(sb) / BPB + 1
  }

  /** Truncation logs no more bitmap blocks than data blocks have, and one block more. */
  lemma TruncLogBound(x: State, i: nat)
    requires FilesOk(x) && i < |x.inodes|
    ensures |TruncLog(x, i)| <= Max(DataMaps(x.sb), 0) + 1
  {
    var lo, hi := x.sb.bmapstart + DataStart(x.sb) / BPB, x.sb.bmapstart + (x.sb.size - 1) / BPB + 1;
    forall c | c in MapBlocks(x, i, MAXFILE + 1)
      ensures c in Interval(lo, hi)
    {
      var b :| b in OwnedTo(x, i, MAXFILE + 1) && BBlock(x.sb, b) == c;
      assert OwnerOk(x, b);
    }
    SubsetCard(MapBlocks(x, i, MAXFILE + 1), Interval(lo, hi));
  }

  /** The first data block whose bit is in the k-th bitmap block of data blocks. */
  function SpreadBlock(sb: Super, k: nat): nat {
    if k == 0 then DataStart(sb) else (DataStart(sb) / BPB + k) * BPB
  }

  lemma SpreadBlocks(sb: Super, k: nat)
    requires Layout(sb) && k < DataMaps(sb) && DataStart(sb) < sb.size
    ensures DataStart(sb) <= SpreadBlock(sb, k) < sb.size && BBlock(sb, SpreadBlock(sb, k)) == sb.bmapstart + DataStart(sb) / BPB + k
  {
    if k > 0 {
      var q := DataStart(sb) / BPB + k;
      assert q * BPB / BPB == q && q <= (sb.size - 1) / BPB;
      assert q * BPB <= (sb.size - 1) / BPB * BPB <= sb.size - 1;
      assert DataStart(sb) < (DataStart(sb) / BPB + 1) * BPB <= q * BPB;
    }
  }

  // Inodes that own nothing.

  /** An empty inode can be given a new type, or freed. */
  lemma EmptyInode(x: State, i: nat, d: Dinode)
    requires FilesOk(x) && i < |x.inodes| && x.inodes[i].size == 0
    requires Fits(d) && d.size == 0 && d.addrs == NoBlocks()
    ensures var y := x.(inodes := x.inodes[i := d]);
            FilesOk(y) && forall j | 0 <= j < |x.inodes| && j != i :: Bytes(y.inodes[j], y.data) == Bytes(x.inodes[j], x.data)
  {
    var y := x.(inodes := x.inodes[i := d]);
    forall j: nat, k: nat | j < |y.inodes| && k <= MAXFILE
      ensures SlotOk(y, j, k)
    {
      assert SlotOk(x, j, k);
    }
    forall b | b in y.owner
      ensures OwnerOk(y, b)
    {
      var (j, k) := x.owner[b];
      assert OwnerOk(x, b) && Slot(x.inodes[j], x.data, k) == b;
      assert j != i by {
        assert k < MAXFILE ==> !(k * BSIZE < 0);
      }
    }
  }

  /**
   Where a byte of a file lies: in the block that its inode lists directly, for the first twelve, or that the block of the
   thirteenth number lists.
   */
  lemma ContentOnDisk(x: State, i: nat, p: nat)
    requires FilesOk(x) && i < |x.inodes| && x.inodes[i].kind != 0 && p < x.inodes[i].size
    ensures |x.inodes[i].addrs| == 13 && (p / 512 >= 12 ==> DataStart(x.sb) <= x.inodes[i].addrs[12] < |x.data|)
    ensures p / 512 < 140 && (p / 512 >= 12 ==> |x.data[x.inodes[i].addrs[12]]| == 512)
    ensures var d, k := x.inodes[i], p / 512;
            var b := if k < 12 then d.addrs[k] else Word(x.data[d.addrs[12]], k - 12);
            && DataStart(x.sb) <= b < |x.data| && |x.data[b]| == 512 && Bytes(d, x.data)[p] == x.data[b][p % 512]
  {
    var k := p / BSIZE;
    assert SlotOk(x, i, k) && SlotOk(x, i, MAXFILE);
  }

  lemma ByteOfBlock(d: Dinode, data: seq<Block>, off: nat, q: nat, b: nat)
    requires |d.addrs| == NDIRECT + 1 && off + q < MAXSIZE && off % BSIZE + q < BSIZE
    requires b == Slot(d, data, off / BSIZE) && b < |data| && |data[b]| == BSIZE
    ensures ByteAt(d, data, off + q) == data[b][off % BSIZE + q]
  {
    assert (off + q) / BSIZE == off / BSIZE && (off + q) % BSIZE == off % BSIZE + q;
  }

  /** A piece of a block is a piece of the file. */
  lemma PieceOfBytes(d: Dinode, data: seq<Block>, off: nat, to: nat, b: nat)
    requires |d.addrs| == NDIRECT + 1 && off < to <= d.size <= MAXSIZE && off % BSIZE + (to - off) <= BSIZE
    requires b == Slot(d, data, off / BSIZE) && b < |data| && |data[b]| == BSIZE
    ensures data[b][off % BSIZE..off % BSIZE + (to - off)] == Bytes(d, data)[off..to]
  {
    var o := off % BSIZE;
    var l, r := data[b][o..o + (to - off)], Bytes(d, data)[off..to];
    forall q | 0 <= q < |l|
      ensures l[q] == r[q]
    {
      ByteOfBlock(d, data, off, q, b);
    }
  }

  lemma SliceJoin(c: seq<byte>, a: nat, b: nat, e: nat)
    requires a <= b <= e <= |c|
    ensures c[a..b] + c[b..e] == c[a..e]
  {
  }

  lemma DropMap(m: map<nat, Dinode>, i: nat, d: Dinode)
    ensures m[i := d] - {i} == m - {i}
  {
  }

  datatype Got = Got(bytes: seq<byte>) | Bad

  datatype Outcome = Done(count: nat) | Failed | Panic

  /** The inodes of the disk, one of them as memory has it. */
  class FileSystem {
    const vol: Volume
    /** The in-memory inodes that hold what was read from the disk. */
    var mem: map<nat, Dinode>
    ghost var owner: map<nat, (nat, nat)>
    /** The numbers of those inodes. */
    ghost var cached: set<nat>

    /** `iinit` over a volume whose files are in order. */
    constructor (vol: Volume, ghost owner: map<nat, (nat, nat)>)
      requires vol.Valid() && FilesOk(State(vol.sb, vol.inodes, vol.bits, vol.data, owner))
      ensures Valid() && this.vol == vol && mem == map[]
    {
      this.vol, mem, this.owner, cached := vol, map[], owner, {};
    }

    ghost function With(i: nat): State
      requires i < |vol.inodes| && i in mem
      reads this, vol
    {
      State(vol.sb, vol.inodes[i := mem[i]], vol.bits, vol.data, owner)
    }

    /** In the middle of an operation on inode i. */
    ghost predicate Open(i: nat)
      reads this, vol
    {
      && vol.Valid() && i < vol.sb.ninodes && i in mem && mem.Keys == cached && Fits(mem[i]) && Owned(With(i))
      && (forall j | j in mem :: j < vol.sb.ninodes && (j != i ==> mem[j] == vol.inodes[j]) && mem[j].kind != 0)
    }

    /** Allocate a block for a slot in the inode itself. */
    method AllocInInode(i: nat, k: nat) returns (r: Option)
      requires Open(i) && (k < NDIRECT || k == MAXFILE) && Slot(mem[i], vol.data, k) == 0
      modifies this`mem, this`owner, vol`blocks, vol`bits, vol`data, vol`logged
      ensures vol.Valid() && (r.None? <==> forall b | 0 <= b < vol.sb.size :: old(vol.bits)[b])
      ensures r.None? ==> vol.bits == old(vol.bits)
      ensures r.Some? ==> CanLink(old(With(i)), i, k, r.value) && Open(i) && With(i) == Link(old(With(i)), i, k, r.value)
      ensures r.Some? ==> vol.logged == old(vol.logged) + {BBlock(vol.sb, r.value), r.value}
    {
      ghost var x := With(i);
      r := vol.Balloc();
      if r.Some? {
        LinkKeeps(x, i, k, r.value);
        var d := mem[i];
        mem := mem[i := d.(addrs := d.addrs[(if k < NDIRECT then k else NDIRECT) := r.value])];
        owner := owner[r.value := (i, k)];
        assert With(i) == Link(x, i, k, r.value);
      }
    }

    /** Allocate a block for a slot in the indirect block a. */
    method AllocInBlock(i: nat, k: nat, a: nat) returns (r: Option)
      requires Open(i) && NDIRECT <= k < MAXFILE && Slot(mem[i], vol.data, k) == 0 && mem[i].addrs[NDIRECT] == a != 0
      modifies this`owner, vol`blocks, vol`bits, vol`data, vol`logged
      ensures vol.Valid() && (r.None? <==> forall b | 0 <= b < vol.sb.size :: old(vol.bits)[b])
      ensures r.None? ==> vol.bits == old(vol.bits)
      ensures r.Some? ==> CanLink(old(With(i)), i, k, r.value) && Open(i) && With(i) == Link(old(With(i)), i, k, r.value)
      ensures r.Some? ==> vol.logged == old(vol.logged) + {BBlock(vol.sb, r.value), r.value, a}
    {
      ghost var x := With(i);
      assert SlotOk(x, i, MAXFILE);
      var t := vol.Bread(a);
      r := vol.Balloc();
      if r.Some? {
        LinkKeeps(x, i, k, r.value);
        vol.LogData(a, SetWord(t, k - NDIRECT, r.value));
        owner := owner[r.value := (i, k)];
        assert With(i) == Link(x, i, k, r.value);
      }
    }

    /**
     `bmap`: the block of the file with number bn, allocated if there is none. It fails, where the source panics, on a
     number out of range and when balloc finds the disk full. `bm` covers the bitmap blocks it logs.
     */
    method Bmap(i: nat, bn: nat) returns (r: Option, ghost bm: set<nat>)
      requires Open(i)
      modifies this`mem, this`owner, vol`blocks, vol`bits, vol`data, vol`logged
      ensures r.Some? ==> Open(i) && Mapped(old(With(i)), With(i), i, bn, r.value)
      ensures r.Some? && Slot(old(mem[i]), old(vol.data), bn) != 0 ==>
                vol.blocks == old(vol.blocks) && vol.logged == old(vol.logged)
      ensures r.Some? ==> && vol.logged <= old(vol.logged) + bm + {r.value} + Indirect(mem[i])
                          && |bm| <= Allocated(old(mem[i]), mem[i], Slot(old(mem[i]), old(vol.data), bn))
      ensures r.None? ==> vol.Valid() && (bn >= MAXFILE || forall b | 0 <= b < vol.sb.size :: vol.bits[b])
      ensures r.None? && bn < MAXFILE ==> Slot(old(mem[i]), old(vol.data), bn) == 0
      ensures r.None? && bn < MAXFILE ==> FreeBlocks(old(vol.bits)) < Needs(old(mem[i]), bn)
    {
      bm := {};
      ghost var x := With(i);
      if bn < NDIRECT {
        var b := mem[i].addrs[bn];
        if b == 0 {
          r := AllocInInode(i, bn);
          if r.Some? {
            MapOne(x, i, bn, r.value);
            bm := {BBlock(vol.sb, r.value)};
          } else {
            NoneFree(vol.bits);
          }
          return;
        }
        return Some(b), {};
      }
      if bn >= MAXFILE {
        return None, {};
      }
      var a := mem[i].addrs[NDIRECT];
      if a == 0 {
        r, bm := BmapFirst(i, bn);
      } else {
        r := BmapBelow(i, bn, a);
        if r.Some? && Slot(x.inodes[i], x.data, bn) == 0 {
          MapOne(x, i, bn, r.value);
          bm := {BBlock(vol.sb, r.value)};
        }
        if r.None? {
          NoneFree(vol.bits);
        }
      }
    }

    /** The part of `bmap` below an indirect block a. */
    method BmapBelow(i: nat, bn: nat, a: nat) returns (r: Option)
      requires Open(i) && NDIRECT <= bn < MAXFILE && mem[i].addrs[NDIRECT] == a != 0
      modifies this`owner, vol`blocks, vol`bits, vol`data, vol`logged
      ensures vol.Valid()
      ensures r.None? ==> Slot(mem[i], old(vol.data), bn) == 0 && forall b | 0 <= b < vol.sb.size :: vol.bits[b]
      ensures r.None? ==> vol.bits == old(vol.bits)
      ensures r.Some? ==> Open(i)
      ensures r.Some? && Slot(mem[i], old(vol.data), bn) == 0 ==>
                && CanLink(old(With(i)), i, bn, r.value) && With(i) == Link(old(With(i)), i, bn, r.value)
                && vol.logged == old(vol.logged) + {BBlock(vol.sb, r.value), r.value, a}
      ensures r.Some? && Slot(mem[i], old(vol.data), bn) != 0 ==>
                && r.value == Slot(mem[i], old(vol.data), bn) && With(i) == old(With(i))
                && vol.blocks == old(vol.blocks) && vol.logged == old(vol.logged)
    {
      assert SlotOk(With(i), i, MAXFILE);
      var t := vol.Bread(a);
      var b := Word(t, bn - NDIRECT);
      if b == 0 {
        r := AllocInBlock(i, bn, a);
        return;
      }
      return Some(b);
    }

    /** `bmap` when the file has no indirect block yet. */
    method BmapFirst(i: nat, bn: nat) returns (r: Option, ghost bm: set<nat>)
      requires Open(i) && NDIRECT <= bn < MAXFILE && mem[i].addrs[NDIRECT] == 0
      modifies this`mem, this`owner, vol`blocks, vol`bits, vol`data, vol`logged
      ensures r.Some? ==> Open(i) && Mapped(old(With(i)), With(i), i, bn, r.value)
      ensures r.Some? ==> vol.logged <= old(vol.logged) + bm + {r.value} + Indirect(mem[i]) && |bm| <= 2
      ensures r.None? ==> vol.Valid() && forall b | 0 <= b < vol.sb.size :: vol.bits[b]
      ensures r.None? ==> FreeBlocks(old(vol.bits)) < 2
    {
      bm := {};
      ghost var x := With(i);
      r := AllocInInode(i, MAXFILE);
      if r.Some? {
        var a := r.value;
        r := BmapSecond(i, bn, a, x);
        if r.Some? {
          bm := {BBlock(vol.sb, a), BBlock(vol.sb, r.value)};
          TwoLogged(old(vol.logged), vol.logged, BBlock(vol.sb, a), a, BBlock(vol.sb, r.value), r.value);
        } else {
          TakeOne(old(vol.bits), a);
          NoneFree(vol.bits);
        }
      } else {
        NoneFree(vol.bits);
      }
    }

    /** The second block, below the new indirect block a. */
    method BmapSecond(i: nat, bn: nat, a: nat, ghost x: State) returns (r: Option)
      requires Open(i) && NDIRECT <= bn < MAXFILE && CanLink(x, i, MAXFILE, a) && With(i) == Link(x, i, MAXFILE, a)
      modifies this`owner, vol`blocks, vol`bits, vol`data, vol`logged
      ensures vol.Valid() && Indirect(mem[i]) == {a}
      ensures r.Some? ==> Open(i) && Mapped(x, With(i), i, bn, r.value)
      ensures r.Some? ==> vol.logged == old(vol.logged) + {BBlock(vol.sb, r.value), r.value, a}
      ensures r.None? ==> vol.bits == old(vol.bits) && forall b | 0 <= b < vol.sb.size :: vol.bits[b]
    {
      ghost var y := With(i);
      IndirectEmpty(x, i, bn, a);
      r := BmapBelow(i, bn, a);
      if r.Some? {
        MapTwo(x, y, i, bn, a, r.value);
      }
    }

    ghost function Whole(): State
      reads this, vol
    {
      State(vol.sb, vol.inodes, vol.bits, vol.data, owner)
    }

    /** Between operations: every valid in-memory inode is what the disk has. */
    ghost predicate Valid()
      reads this, vol
    {
      && vol.Valid() && FilesOk(Whole()) && mem.Keys == cached
      && (forall j | j in mem :: j < vol.sb.ninodes && mem[j] == vol.inodes[j] && mem[j].kind != 0)
    }

    /** One turn of the loop of `writei`. `bm` covers the bitmap blocks it logs, and `b` is the data block. */
    method WritePiece(i: nat, off: nat, piece: seq<byte>) returns (ok: bool, b: nat, ghost bm: set<nat>)
      requires Open(i) && 1 <= |piece| && off % BSIZE + |piece| <= BSIZE && off < MAXSIZE
      modifies this`mem, this`owner, vol`blocks, vol`bits, vol`data, vol`logged
      ensures ok ==> Open(i) && Piece(old(With(i)), With(i), i, off, piece)
      ensures ok ==> && vol.logged <= old(vol.logged) + bm + {b} + Indirect(mem[i])
                     && |bm| <= Allocated(old(mem[i]), mem[i], Slot(old(mem[i]), old(vol.data), off / BSIZE))
      ensures !ok ==> vol.Valid() && forall b | 0 <= b < vol.sb.size :: vol.bits[b]
      ensures !ok ==> && Slot(old(mem[i]), old(vol.data), off / BSIZE) == 0
                      && FreeBlocks(old(vol.bits)) < Needs(old(mem[i]), off / BSIZE)
    {
      ghost var x := With(i);
      var r;
      r, bm := Bmap(i, off / BSIZE);
      if r.None? {
        return false, 0, bm;
      }
      ok, b := true, r.value;
      PutPiece(i, off, piece, b, x);
    }

    /** Copy the piece into the block b that bmap gave. */
    method PutPiece(i: nat, off: nat, piece: seq<byte>, b: nat, ghost x: State)
      requires Owned(x) && Open(i) && Mapped(x, With(i), i, off / BSIZE, b)
      requires 1 <= |piece| && off % BSIZE + |piece| <= BSIZE && off < MAXSIZE
      modifies vol`blocks, vol`data, vol`logged
      ensures Open(i) && Piece(x, With(i), i, off, piece) && vol.logged == old(vol.logged) + {b}
    {
      ghost var y := With(i);
      assert SlotOk(y, i, off / BSIZE);
      var t := vol.Bread(b);
      MapAndPut(x, y, i, off, piece, b);
      PutData(y, i, off / BSIZE, b, Splice(t, off % BSIZE, piece));
      vol.LogData(b, Splice(t, off % BSIZE, piece));
      assert With(i) == y.(data := y.data[b := Splice(y.data[b], off % BSIZE, piece)]);
    }

    /** One turn of the loop of `writei`, in a write that started in x. */
    method WriteTurn(i: nat, src: seq<byte>, off: nat, tot: nat, ghost x: State, ghost c: seq<byte>,
                     ghost before: set<nat>, ghost bm: set<nat>, ghost ds: set<nat>)
        returns (ok: bool, to: nat, ghost bm1: set<nat>, ghost ds1: set<nat>)
      requires Open(i) && Progress(x, With(i), i, c, off, src, tot) && tot < |src| && AtEdge(off, tot)
      requires LogBound(x.inodes[i], mem[i], before, vol.logged, bm, ds, off, tot)
      requires Owned(x) && Progress(x, x, i, c, off, src, 0)
      modifies this`mem, this`owner, vol`blocks, vol`bits, vol`data, vol`logged
      ensures tot < to <= |src| && (to < |src| ==> AtEdge(off, to))
      ensures ok ==> Open(i) && Progress(x, With(i), i, c, off, src, to)
      ensures ok ==> LogBound(x.inodes[i], mem[i], before, vol.logged, bm1, ds1, off, to)
      ensures !ok ==> vol.Valid() && forall b | 0 <= b < vol.sb.size :: vol.bits[b]
      ensures !ok ==> Short(x.bits, |c|, off + |src|)
    {
      var cur := off + tot;
      to := PieceEnd(off, tot, |src|);
      var piece := src[tot..to];
      ghost var y, e, lg := With(i), mem[i], vol.logged;
      var b;
      ok, b, bm1 := WritePiece(i, cur, piece);
      ds1 := {};
      if ok {
        ProgressStep(x, y, With(i), i, c, off, src, tot, to, cur, piece);
        LogStep(x.inodes[i], e, mem[i], before, lg, vol.logged, bm, ds, bm1, b, Slot(e, y.data, cur / BSIZE), off, tot, to);
        bm1, ds1 := bm + bm1, ds + {b};
      } else {
        ShortHere(x, y, i, c, off, src, tot, cur, cur / BSIZE);
      }
    }

    /** The loop of `writei`. */
    method WriteLoop(i: nat, src: seq<byte>, off: nat, ghost c: seq<byte>)
        returns (ok: bool, ghost bm: set<nat>, ghost ds: set<nat>)
      requires Open(i) && Progress(With(i), With(i), i, c, off, src, 0)
      modifies this`mem, this`owner, vol`blocks, vol`bits, vol`data, vol`logged
      ensures ok ==> Open(i) && Progress(old(With(i)), With(i), i, c, off, src, |src|)
      ensures ok ==> LogBound(old(mem[i]), mem[i], old(vol.logged), vol.logged, bm, ds, off, |src|)
      ensures !ok ==> vol.Valid() && forall b | 0 <= b < vol.sb.size :: vol.bits[b]
      ensures !ok ==> Short(old(vol.bits), |c|, off + |src|)
    {
      bm, ds := {}, {};
      ghost var x := With(i);
      var tot := 0;
      while tot < |src|
        invariant tot <= |src| && (tot < |src| ==> AtEdge(off, tot))
        invariant Open(i) && Progress(x, With(i), i, c, off, src, tot)
        invariant LogBound(x.inodes[i], mem[i], old(vol.logged), vol.logged, bm, ds, off, tot)
      {
        ok, tot, bm, ds := WriteTurn(i, src, off, tot, x, c, old(vol.logged), bm, ds);
        if !ok {
          return;
        }
      }
      ok := true;
    }

    /**
     `writei` on a file or a directory. It fails on a range that starts past the end of the file, wraps around, or ends
     past the largest file. A panic, when the disk is full, ends the run. `bm` covers the bitmap blocks it logs and `ds`
     the data blocks.
     */
    method Writei(i: nat, src: seq<byte>, off: nat) returns (r: Outcome, ghost bm: set<nat>, ghost ds: set<nat>)
      requires Valid() && i in mem && off < UINT && |src| < UINT
      modifies this`mem, this`owner, vol`blocks, vol`bits, vol`inodes, vol`data, vol`logged
      ensures r.Failed? <==> off > old(mem[i]).size || off + |src| >= UINT || off + |src| > MAXSIZE
      ensures r.Failed? ==> mem == old(mem) && Whole() == old(Whole()) && vol.blocks == old(vol.blocks) && vol.logged == old(vol.logged)
      ensures r.Done? ==> Valid() && r.count == |src| && WriteDone(old(Whole()), Whole(), i, off, src)
      ensures r.Done? ==> && vol.logged <= old(vol.logged) + bm + ds + Indirect(mem[i]) + {IBlock(vol.sb, i)}
                          && |ds| <= Touched(off, |src|)
                          && |bm| <= BlocksFor(mem[i].size) - BlocksFor(old(mem[i]).size)
                                     + |Indirect(mem[i]) - Indirect(old(mem[i]))|
      ensures r.Panic? ==> vol.Valid() && forall b | 0 <= b < vol.sb.size :: vol.bits[b]
      ensures !r.Failed? ==> (r.Panic? <==> Short(old(vol.bits), old(mem[i]).size, off + |src|))
      ensures r.Done? ==> Spent(old(vol.bits), old(mem[i]).size, vol.bits, mem[i].size)
    {
      bm, ds := {}, {};
      var d := mem[i];
      if off > d.size || off + |src| >= UINT || off + |src| > MAXSIZE {
        return Failed, bm, ds;
      }
      ghost var x := Whole();
      assert x.inodes == x.inodes[i := mem[i]];
      assert With(i) == x;
      var ok;
      ok, bm, ds := WriteLoop(i, src, off, Bytes(d, vol.data));
      if !ok {
        return Panic, bm, ds;
      }
      FinishWrite(i, off, src, x);
      return Done(|src|), bm, ds;
    }

    /** What is left once the loop of `writei` has written everything. */
    method FinishWrite(i: nat, off: nat, src: seq<byte>, ghost x: State)
      requires Open(i) && FilesOk(x) && i < |x.inodes| && x.inodes[i].kind != 0
      requires Progress(x, With(i), i, Bytes(x.inodes[i], x.data), off, src, |src|)
      requires off + |src| <= mem[i].size ==> mem[i] == vol.inodes[i]
      modifies this`mem, vol`blocks, vol`inodes, vol`logged
      ensures Valid() && i in mem && WriteDone(x, Whole(), i, off, src)
      ensures mem[i].addrs == old(mem[i]).addrs && mem[i].size == Max(old(mem[i]).size, off + |src|)
      ensures vol.logged <= old(vol.logged) + {IBlock(vol.sb, i)}
      ensures Spent(x.bits, x.inodes[i].size, vol.bits, mem[i].size)
      ensures !Short(x.bits, x.inodes[i].size, off + |src|)
    {
      ghost var y, n := With(i), Max(x.inodes[i].size, off + |src|);
      WriteFits(x, y, i, off, src, n);
      WriteEnds(x, y, i, off, src);
      EndWrite(i, off, src, x);
      assert vol.bits == y.bits && mem[i].size == n;
    }

    /** The end of `writei`: the inode goes to disk only if the file has grown. */
    method EndWrite(i: nat, off: nat, src: seq<byte>, ghost x: State)
      requires Open(i) && FilesOk(x) && i < |x.inodes| && off <= x.inodes[i].size == mem[i].size && off + |src| <= MAXSIZE
      requires WriteDone(x, Resized(With(i), i, Max(mem[i].size, off + |src|)), i, off, src)
      requires off + |src| <= mem[i].size ==> mem[i] == vol.inodes[i]
      modifies this`mem, vol`blocks, vol`inodes, vol`logged
      ensures Valid() && WriteDone(x, Whole(), i, off, src)
      ensures mem[i].addrs == old(mem[i]).addrs && mem[i].size == Max(old(mem[i]).size, off + |src|)
      ensures vol.logged <= old(vol.logged) + {IBlock(vol.sb, i)}
    {
      ghost var z := Resized(With(i), i, Max(mem[i].size, off + |src|));
      if |src| > 0 && off + |src| > mem[i].size {
        mem := mem[i := mem[i].(size := off + |src|)];
        vol.Iupdate(i, mem[i]);
      }
      WriteDoneSame(x, z, Whole(), i, off, src);
    }

    /** Free the block b in slot k, if there is one, after those before it. The bfree finds its block marked. */
    method FreeSlot(i: nat, k: nat, b: nat, ghost x: State, ghost before: set<nat>)
      requires vol.Valid() && Owned(x) && i < |x.inodes| && k <= MAXFILE && b == Slot(x.inodes[i], x.data, k)
      requires x.sb == vol.sb && vol.bits == Freed(x, i, k) && vol.logged == before + MapBlocks(x, i, k)
      modifies vol`blocks, vol`bits, vol`logged
      ensures vol.Valid() && vol.bits == Freed(x, i, k + 1) && vol.logged == before + MapBlocks(x, i, k + 1)
    {
      FreedNext(x, i, k);
      MapBlocksNext(x, i, k);
      if b != 0 {
        var ok := vol.Bfree(b);
        assert ok;
      }
    }

    /** The first loop of `itrunc`, which clears the direct addresses. */
    method FreeDirect(i: nat, d: Dinode, ghost x: State) returns (addrs: seq<nat>)
      requires vol.Valid() && Owned(x) && i < |x.inodes| && x.inodes[i] == d
      requires x.sb == vol.sb && vol.bits == Freed(x, i, 0)
      modifies vol`blocks, vol`bits, vol`logged
      ensures vol.Valid() && vol.bits == Freed(x, i, NDIRECT) && vol.logged == old(vol.logged) + MapBlocks(x, i, NDIRECT)
      ensures |addrs| == NDIRECT + 1 && (forall k | 0 <= k < NDIRECT :: addrs[k] == 0) && addrs[NDIRECT] == d.addrs[NDIRECT]
    {
      addrs := d.addrs;
      var j := 0;
      while j < NDIRECT
        invariant j <= NDIRECT && vol.Valid() && vol.bits == Freed(x, i, j)
        invariant vol.logged == old(vol.logged) + MapBlocks(x, i, j)
        invariant |addrs| == NDIRECT + 1 && (forall k | 0 <= k < j :: addrs[k] == 0)
        invariant forall k | j <= k <= NDIRECT :: addrs[k] == d.addrs[k]
      {
        FreeSlot(i, j, addrs[j], x, old(vol.logged));
        addrs := addrs[j := 0];
        j := j + 1;
      }
    }

    /** The second loop of `itrunc`, over the words of the indirect block a. */
    method FreeBelow(i: nat, a: nat, ghost x: State, ghost before: set<nat>)
      requires vol.Valid() && Owned(x) && i < |x.inodes| && x.inodes[i].addrs[NDIRECT] == a != 0
      requires x.sb == vol.sb && x.data == vol.data && vol.bits == Freed(x, i, NDIRECT)
      requires vol.logged == before + MapBlocks(x, i, NDIRECT)
      modifies vol`blocks, vol`bits, vol`logged
      ensures vol.Valid() && vol.bits == Freed(x, i, MAXFILE + 1) && vol.logged == before + MapBlocks(x, i, MAXFILE + 1)
    {
      assert SlotOk(x, i, MAXFILE);
      var t := vol.Bread(a);
      var k := NDIRECT;
      while k < MAXFILE
        invariant NDIRECT <= k <= MAXFILE && vol.Valid() && vol.bits == Freed(x, i, k)
        invariant vol.logged == before + MapBlocks(x, i, k)
      {
        FreeSlot(i, k, Word(t, k - NDIRECT), x, before);
        k := k + 1;
      }
      FreeSlot(i, MAXFILE, a, x, before);
    }

    /** `itrunc`: the inode loses its contents, and exactly its blocks are freed; what it logs. */
    method Itrunc(i: nat)
      requires Valid() && i in mem
      modifies this`mem, this`owner, vol`blocks, vol`bits, vol`inodes, vol`logged
      ensures Valid() && Whole() == Truncated(old(Whole()), i)
      ensures mem == old(mem)[i := old(mem[i]).(size := 0, addrs := NoBlocks())]
      ensures vol.logged == old(vol.logged) + TruncLog(old(Whole()), i)
    {
      ghost var x := Whole();
      TruncKeeps(x, i);
      var d := mem[i];
      assert vol.bits == Freed(x, i, 0);
      var addrs := FreeAll(i, d, x);
      Store(i, d.(size := 0, addrs := addrs), Truncated(x, i));
    }

    /** The loops of `itrunc`. */
    method FreeAll(i: nat, d: Dinode, ghost x: State) returns (addrs: seq<nat>)
      requires vol.Valid() && Owned(x) && i < |x.inodes| && x.inodes[i] == d
      requires x.sb == vol.sb && x.data == vol.data && vol.bits == Freed(x, i, 0)
      modifies vol`blocks, vol`bits, vol`logged
      ensures vol.Valid() && vol.bits == Freed(x, i, MAXFILE + 1) && addrs == NoBlocks()
      ensures vol.logged == old(vol.logged) + MapBlocks(x, i, MAXFILE + 1)
    {
      addrs := FreeDirect(i, d, x);
      if addrs[NDIRECT] != 0 {
        FreeBelow(i, addrs[NDIRECT], x, old(vol.logged));
        addrs := addrs[NDIRECT := 0];
      } else {
        FreedNoIndirect(x, i);
        MapBlocksNoIndirect(x, i);
      }
    }

    /** Write inode i back in an operation that ends in y. */
    method Store(i: nat, d: Dinode, ghost y: State)
      requires vol.Valid() && FilesOk(y) && i in mem && mem.Keys == cached && Fits(d) && d.kind != 0
      requires forall j | j in mem :: j < vol.sb.ninodes && mem[j] == vol.inodes[j] && mem[j].kind != 0
      requires y == Whole().(inodes := vol.inodes[i := d], owner := y.owner)
      modifies this`mem, this`owner, vol`blocks, vol`inodes, vol`logged
      ensures Valid() && mem == old(mem)[i := d] && Whole() == y && vol.logged == old(vol.logged) + {IBlock(vol.sb, i)}
    {
      mem := mem[i := d];
      vol.Iupdate(i, d);
      owner := y.owner;
      FilesOkSame(y, Whole());
    }

    /** `ilock`, from the point where the lock is held: it panics on an inode without a type. */
    method Ilock(i: nat) returns (ok: bool)
      requires Valid() && i < vol.sb.ninodes
      modifies this`mem, this`cached
      ensures ok <==> vol.inodes[i].kind != 0
      ensures ok ==> Valid() && mem == old(mem)[i := vol.inodes[i]]
    {
      if i !in mem {
        var d := vol.ReadInode(i);
        mem, cached := mem[i := d], cached + {i};
        if d.kind == 0 {
          return false;
        }
      }
      return true;
    }

    /** The block that `bmap` returns without allocating, 0 if it has to allocate. */
    method Lookup(i: nat, bn: nat) returns (b: nat)
      requires Valid() && i in mem && bn < MAXFILE
      ensures b == Slot(mem[i], vol.data, bn)
    {
      if bn < NDIRECT {
        return mem[i].addrs[bn];
      }
      var a := mem[i].addrs[NDIRECT];
      if a == 0 {
        return 0;
      }
      assert SlotOk(Whole(), i, MAXFILE);
      var t := vol.Bread(a);
      return Word(t, bn - NDIRECT);
    }

    /** One turn of the loop of `readi`: bmap finds the block there. */
    method ReadPiece(i: nat, off: nat, to: nat) returns (piece: seq<byte>)
      requires Valid() && i in mem && off < to <= mem[i].size && off % BSIZE + (to - off) <= BSIZE
      ensures piece == Bytes(mem[i], vol.data)[off..to]
    {
      var bn := off / BSIZE;
      assert bn * BSIZE < mem[i].size;
      var b := Lookup(i, bn);
      assert b != 0;
      assert SlotOk(Whole(), i, bn);
      PieceOfBytes(mem[i], vol.data, off, to, b);
      var t := vol.Bread(b);
      piece := t[off % BSIZE..off % BSIZE + (to - off)];
    }

    /** The loop of `readi`, up to `end`. */
    method ReadLoop(i: nat, off: nat, end: nat) returns (dst: seq<byte>)
      requires Valid() && i in mem && off <= end <= mem[i].size
      ensures dst == Bytes(mem[i], vol.data)[off..end]
    {
      ghost var c := Bytes(mem[i], vol.data);
      var cur := off;
      dst := [];
      while cur < end
        invariant off <= cur <= end && dst == c[off..cur]
      {
        var to := PieceEnd(0, cur, end);
        var piece := ReadPiece(i, cur, to);
        SliceJoin(c, off, cur, to);
        dst, cur := dst + piece, to;
      }
    }

    /** `readi` on a file or a directory: the bytes of the range that the file has. It allocates and logs nothing. */
    method Readi(i: nat, off: nat, n: nat) returns (r: Got)
      requires Valid() && i in mem && off < UINT && n < UINT
      ensures r.Bad? <==> off > mem[i].size || off + n >= UINT
      ensures r.Got? ==> r.bytes == Bytes(mem[i], vol.data)[off..if off + n < mem[i].size then off + n else mem[i].size]
    {
      if off > mem[i].size || off + n >= UINT {
        return Bad;
      }
      var end := if off + n > mem[i].size then mem[i].size else off + n;
      var dst := ReadLoop(i, off, end);
      return Got(dst);
    }

    /** `ialloc`: the first free inode from 1 on, emptied and typed; without one the source panics. */
    method Ialloc(kind: nat) returns (r: Option)
      requires Valid() && 0 < kind < 65536
      modifies vol`blocks, vol`inodes, vol`logged
      ensures r.None? <==> forall j | 1 <= j < vol.sb.ninodes :: old(vol.inodes)[j].kind != 0
      ensures r.None? ==> Valid() && Whole() == old(Whole())
      ensures vol.logged == old(vol.logged) + if r.Some? then {IBlock(vol.sb, r.value)} else {}
      ensures r.Some? ==> && Valid() && 1 <= r.value < vol.sb.ninodes && old(vol.inodes)[r.value].kind == 0
                          && (forall j | 1 <= j < r.value :: old(vol.inodes)[j].kind != 0)
                          && Whole() == old(Whole()).(inodes := old(vol.inodes)[r.value := Dinode(kind, 0, 0, 0, 0, NoBlocks())])
    {
      var i := 1;
      while i < vol.sb.ninodes
        invariant Valid() && vol.inodes == old(vol.inodes) && vol.logged == old(vol.logged)
        invariant 1 <= i && forall j | 1 <= j < i && j < vol.sb.ninodes :: vol.inodes[j].kind != 0
      {
        var d := vol.ReadInode(i);
        if d.kind == 0 {
          d := Dinode(kind, 0, 0, 0, 0, NoBlocks());
          EmptyInode(Whole(), i, d);
          ghost var y := Whole().(inodes := vol.inodes[i := d]);
          vol.Iupdate(i, d);
          FilesOkSame(y, Whole());
          return Some(i);
        }
        i := i + 1;
      }
      return None;
    }

    /** The part of `iput` that frees an inode without links when the last of its ref references goes. */
    method Iput(i: nat, ref: nat)
      requires Valid() && i in mem
      modifies this`mem, this`owner, this`cached, vol`blocks, vol`bits, vol`inodes, vol`logged
      ensures Valid()
      ensures old(mem[i]).nlink == 0 && ref == 1 ==>
                && mem == old(mem) - {i}
                && Whole() == var y := Truncated(old(Whole()), i); y.(inodes := y.inodes[i := y.inodes[i].(kind := 0)])
      ensures !(old(mem[i]).nlink == 0 && ref == 1) ==> mem == old(mem) && Whole() == old(Whole())
      ensures vol.logged == old(vol.logged) + if old(mem[i]).nlink == 0 && ref == 1 then TruncLog(old(Whole()), i) else {}
    {
      if mem[i].nlink == 0 && ref == 1 {
        ghost var m := mem;
        Itrunc(i);
        Drop(i);
        DropMap(m, i, m[i].(size := 0, addrs := NoBlocks()));
      }
    }

    /** An empty inode is marked free on disk and its in-memory copy given up. */
    method Drop(i: nat)
      requires Valid() && i in mem && mem[i].size == 0 && mem[i].addrs == NoBlocks()
      modifies this`mem, this`cached, vol`blocks, vol`inodes, vol`logged
      ensures Valid() && mem == old(mem) - {i}
      ensures vol.inodes == old(vol.inodes)[i := old(vol.inodes)[i].(kind := 0)]
      ensures vol.logged == old(vol.logged) + {IBlock(vol.sb, i)}
    {
      var d := mem[i].(kind := 0);
      EmptyInode(Whole(), i, d);
      ghost var y := Whole().(inodes := vol.inodes[i := d]);
      vol.Iupdate(i, d);
      mem, cached := mem - {i}, cached - {i};
      FilesOkSame(y, Whole());
    }
  }
}
