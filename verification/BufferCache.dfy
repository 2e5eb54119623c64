/**
 The block cache of bio.c: buffers on a doubly linked circular list in most-recently-used order, on top of a
 disk with the synchronous `iderw` of memide.c.

 Buffers are named by their index in `bcache.buf`; the index NBUF is the list head `bcache.head`. The ghost
 field `order` is the list as a sequence, most recently used first. The flat array that the cache implements
 is `View`: a block's valid cached copy where there is one, the disk block otherwise.
 */
module BufferCache {
  import opened Common
  import opened Blocks

  const HEAD: nat := NBUF

  type Data = Block

  datatype Key = Key(dev: nat, blockno: nat)

  /** One block written to the disk. */
  datatype Out = Out(key: Key, data: Data)

  datatype Buf = Buf(key: Key, valid: bool, dirty: bool, refcnt: nat, locked: bool, data: Data)

  // ------------------------------------------------------------------ the linked list

  /** The nodes of the circle in `next` order, with the head at both ends. */
  ghost function Circle(order: seq<nat>): (c: seq<nat>) {
    [HEAD] + order + [HEAD]
  }

  /** `next` and `prev` are the circle through the head and the buffers of `order`, in that order. */
  ghost predicate Linked(next: seq<nat>, prev: seq<nat>, order: seq<nat>) {
    && |next| == |prev| == NBUF + 1
    && Distinct(order)
    && (forall k | 0 <= k < |order| :: order[k] < NBUF)
    && (forall k | 0 <= k <= |order| :: Joined(next, prev, Circle(order), k))
  }

  /** The k-th and the next node of the circle point at each other. */
  ghost predicate Joined(next: seq<nat>, prev: seq<nat>, c: seq<nat>, k: int) {
    && 0 <= k < |c| - 1 && c[k] < |next| && c[k + 1] < |prev|
    && next[c[k]] == c[k + 1] && prev[c[k + 1]] == c[k]
  }

  /** Every buffer is on the list. */
  ghost predicate Complete(order: seq<nat>) {
    |order| == NBUF && forall b: nat | b < NBUF :: b in order
  }

  ghost function Without(order: seq<nat>, p: nat): (r: seq<nat>)
    requires p < |order|
  {
    order[..p] + order[p + 1..]
  }

  /** The first two assignments of the move in `brelse` take the buffer out of the circle. */
  lemma UnlinkKeeps(next: seq<nat>, prev: seq<nat>, order: seq<nat>, p: nat)
    requires Linked(next, prev, order) && p < |order|
    ensures var b := order[p];
            && b < NBUF && next[b] <= NBUF && prev[b] <= NBUF
            && Linked(next[prev[b] := next[b]], prev[next[b] := prev[b]], Without(order, p))
  {
    var b, c := order[p], Circle(order);
    assert c[p + 1] == b;
    assert Joined(next, prev, c, p) && Joined(next, prev, c, p + 1);
    var rest := Without(order, p);
    var d := Circle(rest);
    var n', p' := next[prev[b] := next[b]], prev[next[b] := prev[b]];
    forall k | 0 <= k <= |rest|
      ensures Joined(n', p', d, k)
    {
      assert d[k] == if k <= p then c[k] else c[k + 1];
      assert d[k + 1] == if k + 1 <= p then c[k + 1] else c[k + 2];
      assert k < p ==> Joined(next, prev, c, k);
      assert k > p ==> Joined(next, prev, c, k + 1);
    }
  }

  /** The last four assignments put it back right after the head. */
  lemma PushFrontKeeps(next: seq<nat>, prev: seq<nat>, order: seq<nat>, b: nat)
    requires Linked(next, prev, order) && b < NBUF && b !in order
    ensures var first := next[HEAD];
            && first <= NBUF
            && Linked(next[b := first][HEAD := b], prev[b := HEAD][first := b], [b] + order)
  {
    var c, d := Circle(order), Circle([b] + order);
    assert Joined(next, prev, c, 0);
    assert b !in c;
    var first := next[HEAD];
    var n', p' := next[b := first][HEAD := b], prev[b := HEAD][first := b];
    forall k | 0 <= k <= |order| + 1
      ensures Joined(n', p', d, k)
    {
      assert d[k] == if k == 0 then HEAD else if k == 1 then b else c[k - 1];
      assert d[k + 1] == if k == 0 then b else c[k];
      assert k >= 2 ==> Joined(next, prev, c, k - 1);
    }
  }

  // ------------------------------------------------------------------ the flat array

  /** What `bget` may recycle. */
  predicate Free(b: Buf) {
    b.refcnt == 0 && !b.dirty
  }

  /**
   A buffer that nobody holds and that is not pinned agrees with the disk. Buffers still as the zero-filled
   table left them carry device 0.
   */
  ghost predicate BufOk(b: Buf, disk: map<Key, Data>) {
    && (if b.key.dev == 0 then !b.valid && Free(b) && !b.locked else b.key in disk)
    && (b.dirty ==> b.valid)
    && (b.locked ==> b.refcnt > 0)
    && (b.valid && Free(b) ==> b.data == disk[b.key])
  }

  /** At most one buffer per block of a real device. */
  ghost predicate Unique(bufs: seq<Buf>) {
    forall i, j | 0 <= i < j < |bufs| :: bufs[i].key.dev != 0 ==> bufs[i].key != bufs[j].key
  }

  ghost predicate Coherent(bufs: seq<Buf>, disk: map<Key, Data>) {
    Unique(bufs) && forall i | 0 <= i < |bufs| :: BufOk(bufs[i], disk)
  }

  ghost predicate Caches(b: Buf, k: Key) {
    b.valid && b.key == k
  }

  ghost function Lookup(bufs: seq<Buf>, disk: map<Key, Data>, k: Key): (d: Data)
    requires k in disk
  {
    if exists i :: 0 <= i < |bufs| && Caches(bufs[i], k) then
      var i :| 0 <= i < |bufs| && Caches(bufs[i], k);
      bufs[i].data
    else
      disk[k]
  }

  ghost function View(bufs: seq<Buf>, disk: map<Key, Data>): (v: map<Key, Data>) {
    map k | k in disk :: Lookup(bufs, disk, k)
  }

  /** A valid buffer holds the block's current value, and a block without one has it on disk. */
  lemma LookupIs(bufs: seq<Buf>, disk: map<Key, Data>, i: nat)
    requires Coherent(bufs, disk) && i < |bufs| && bufs[i].key.dev != 0
    ensures Lookup(bufs, disk, bufs[i].key) == if bufs[i].valid then bufs[i].data else disk[bufs[i].key]
  {
    assert BufOk(bufs[i], disk);
    assert bufs[i].valid ==> Caches(bufs[i], bufs[i].key);
  }

  /** Changing one buffer but not its key moves only that block's value. */
  lemma ReplaceView(bufs: seq<Buf>, disk: map<Key, Data>, i: nat, b: Buf, disk': map<Key, Data>)
    requires Coherent(bufs, disk) && i < |bufs| && b.key == bufs[i].key && b.key.dev != 0
    requires b.key in disk' && disk' == disk[b.key := disk'[b.key]]
    requires BufOk(b, disk')
    ensures Coherent(bufs[i := b], disk')
    ensures View(bufs[i := b], disk') == View(bufs, disk)[b.key := if b.valid then b.data else disk'[b.key]]
  {
    var bufs' := bufs[i := b];
    assert BufOk(bufs[i], disk);
    forall j | 0 <= j < |bufs|
      ensures BufOk(bufs'[j], disk')
    {
      assert BufOk(bufs[j], disk);
    }
    LookupIs(bufs', disk', i);
    forall k | k in disk && k != b.key
      ensures Lookup(bufs', disk', k) == Lookup(bufs, disk, k)
    {
      OtherBlock(bufs, disk, bufs', disk', k);
    }
  }

  lemma OtherBlock(bufs: seq<Buf>, disk: map<Key, Data>, bufs': seq<Buf>, disk': map<Key, Data>, k: Key)
    requires Coherent(bufs, disk) && Coherent(bufs', disk') && |bufs| == |bufs'|
    requires k in disk && k in disk' && disk[k] == disk'[k]
    requires forall j | 0 <= j < |bufs| :: bufs[j] != bufs'[j] ==> !Caches(bufs[j], k) && !Caches(bufs'[j], k)
    ensures Lookup(bufs', disk', k) == Lookup(bufs, disk, k)
  {
    if j :| 0 <= j < |bufs| && Caches(bufs[j], k) {
      assert BufOk(bufs[j], disk);
      LookupIs(bufs, disk, j);
      LookupIs(bufs', disk', j);
    } else if j :| 0 <= j < |bufs| && Caches(bufs'[j], k) {
      assert false;
    }
  }

  /** Recycling a free buffer for an uncached block changes no value: what it held is on disk. */
  lemma RecycleView(bufs: seq<Buf>, disk: map<Key, Data>, i: nat, k: Key)
    requires Coherent(bufs, disk) && i < |bufs| && Free(bufs[i])
    requires k.dev != 0 && k in disk && forall j | 0 <= j < |bufs| :: bufs[j].key != k
    ensures var b := Buf(k, false, false, 1, true, bufs[i].data);
            Coherent(bufs[i := b], disk) && View(bufs[i := b], disk) == View(bufs, disk)
  {
    var b := Buf(k, false, false, 1, true, bufs[i].data);
    var bufs' := bufs[i := b];
    assert BufOk(bufs[i], disk);
    assert Coherent(bufs', disk);
    forall x | x in disk
      ensures Lookup(bufs', disk, x) == Lookup(bufs, disk, x)
    {
      if Caches(bufs[i], x) {
        LookupIs(bufs, disk, i);
        assert !exists j :: 0 <= j < |bufs'| && Caches(bufs'[j], x);
      } else {
        OtherBlock(bufs, disk, bufs', disk, x);
      }
    }
  }

  // ------------------------------------------------------------------ the code

  class Bcache {
    const bufs: array<Buf>
    const next: array<nat>
    const prev: array<nat>
    var disk: map<Key, Data>
    ghost var order: seq<nat>
    /** The writes that reached the disk so far, in order. */
    ghost var writes: seq<Out>

    ghost predicate Valid()
      reads this, bufs, next, prev
    {
      && bufs.Length == NBUF && next.Length == prev.Length == NBUF + 1 && next != prev
      && Linked(next[..], prev[..], order) && Complete(order)
      && Coherent(bufs[..], disk)
    }

    ghost function Flat(): (v: map<Key, Data>)
      reads this, bufs
    {
      View(bufs[..], disk)
    }

    /** `binit` over zero-filled buffers. */
    constructor Binit(disk: map<Key, Data>)
      ensures Valid() && fresh(bufs) && fresh(next) && fresh(prev)
      ensures this.disk == disk && Flat() == disk && writes == []
      ensures |order| == NBUF && forall i | 0 <= i < NBUF :: order[i] == NBUF - 1 - i
      ensures forall i | 0 <= i < NBUF :: !bufs[i].valid && Free(bufs[i])
    {
      bufs := new Buf[NBUF](_ => Buf(Key(0, 0), false, false, 0, false, []));
      next := new nat[NBUF + 1](_ => HEAD);
      prev := new nat[NBUF + 1](_ => HEAD);
      this.disk := disk;
      order, writes := [], [];
      new;
      var b := 0;
      while b < NBUF
        invariant b <= NBUF
        invariant Linked(next[..], prev[..], order) && |order| == b
        invariant forall x: nat :: x in order <==> x < b
        invariant forall i | 0 <= i < b :: order[i] == b - 1 - i
        invariant bufs.Length == NBUF && forall i | 0 <= i < NBUF :: bufs[i] == Buf(Key(0, 0), false, false, 0, false, [])
        invariant this.disk == disk && writes == []
      {
        PushFrontKeeps(next[..], prev[..], order, b);
        ghost var n: seq<nat>, p: seq<nat> := next[..], prev[..];
        var first := next[HEAD];
        next[b] := first;
        prev[b] := HEAD;
        prev[first] := b;
        next[HEAD] := b;
        assert next[..] == n[b := first][HEAD := b];
        assert prev[..] == p[b := HEAD][first := b];
        order := [b] + order;
        b := b + 1;
      }
      assert Flat() == disk;
    }

    /** The first loop of `bget`: the buffer of block k, or the head if no buffer has it. */
    method FindCached(k: Key) returns (b: nat)
      requires Valid()
      ensures b <= HEAD
      ensures b < HEAD ==> bufs[b].key == k
      ensures b == HEAD ==> forall j | 0 <= j < NBUF :: bufs[j].key != k
    {
      ghost var c, p := Circle(order), 0;
      assert Joined(next[..], prev[..], c, 0);
      b := next[HEAD];
      while b != HEAD
        invariant 0 <= p <= NBUF && b == c[p + 1]
        invariant forall q | 0 <= q < p :: bufs[order[q]].key != k
        decreases NBUF - p
      {
        assert b == order[p];
        if bufs[b].key == k {
          return;
        }
        p := p + 1;
        assert Joined(next[..], prev[..], c, p);
        b := next[b];
      }
      assert p == NBUF;
      forall j: nat | j < NBUF
        ensures bufs[j].key != k
      {
        assert j in order;
        var q :| 0 <= q < NBUF && order[q] == j;
      }
    }

    /** The second loop of `bget`: the least recently used free buffer, or the head if none is free. */
    method FindFree() returns (b: nat)
      requires Valid()
      ensures b <= HEAD
      ensures b < HEAD ==> Free(bufs[b])
      ensures b < HEAD ==> exists p :: 0 <= p < NBUF && order[p] == b && forall q | p < q < NBUF :: !Free(bufs[order[q]])
      ensures b == HEAD ==> forall j | 0 <= j < NBUF :: !Free(bufs[j])
    {
      ghost var c, p := Circle(order), NBUF;
      assert Joined(next[..], prev[..], c, NBUF);
      b := prev[HEAD];
      while b != HEAD
        invariant 0 <= p <= NBUF && b == c[p]
        invariant forall q | p <= q < NBUF :: !Free(bufs[order[q]])
        decreases p
      {
        assert b == order[p - 1];
        if bufs[b].refcnt == 0 && !bufs[b].dirty {
          return;
        }
        p := p - 1;
        assert Joined(next[..], prev[..], c, p);
        b := prev[b];
      }
      assert p == 0;
      forall j: nat | j < NBUF
        ensures !Free(bufs[j])
      {
        assert j in order;
        var q :| 0 <= q < NBUF && order[q] == j;
      }
    }

    /**
     `bget` and the sleep lock behind it: the block's buffer if it has one, otherwise the least recently used
     free buffer, renamed. The result is false where the code panics for want of a buffer.
     */
    method Bget(dev: nat, blockno: nat) returns (ok: bool, b: nat)
      requires Valid() && dev != 0 && Key(dev, blockno) in disk
      requires forall i | 0 <= i < NBUF :: bufs[i].key == Key(dev, blockno) ==> !bufs[i].locked
      modifies bufs
      ensures Valid() && Flat() == old(Flat())
      ensures ok <==> exists i :: 0 <= i < NBUF && (old(bufs[i]).key == Key(dev, blockno) || Free(old(bufs[i])))
      ensures !ok ==> bufs[..] == old(bufs[..])
      ensures ok ==> b < NBUF && bufs[b].key == Key(dev, blockno) && bufs[b].locked
      ensures ok ==> bufs[..] == old(bufs[..])[b := bufs[b]]
      ensures ok && old(bufs[b]).key == Key(dev, blockno) ==>
                bufs[b] == old(bufs[b]).(refcnt := old(bufs[b]).refcnt + 1, locked := true)
      ensures ok && old(bufs[b]).key != Key(dev, blockno) ==>
                && bufs[b] == Buf(Key(dev, blockno), false, false, 1, true, old(bufs[b]).data)
                && Free(old(bufs[b]))
                && (forall i | 0 <= i < NBUF :: old(bufs[i]).key != Key(dev, blockno))
                && exists p :: 0 <= p < NBUF && order[p] == b && forall q | p < q < NBUF :: !Free(old(bufs[order[q]]))
    {
      var k := Key(dev, blockno);
      ghost var was := bufs[..];
      b := FindCached(k);
      if b != HEAD {
        assert BufOk(was[b], disk);
        LookupIs(was, disk, b);
        ReplaceView(was, disk, b, bufs[b].(refcnt := bufs[b].refcnt + 1, locked := true), disk);
        bufs[b] := bufs[b].(refcnt := bufs[b].refcnt + 1, locked := true);
        assert bufs[..] == was[b := bufs[b]];
        assert View(bufs[..], disk) == View(was, disk);
        return true, b;
      }
      b := FindFree();
      if b != HEAD {
        RecycleView(was, disk, b, k);
        bufs[b] := Buf(k, false, false, 1, true, bufs[b].data);
        assert bufs[..] == was[b := bufs[b]];
        return true, b;
      }
      ok := false;
    }

    /** `bread` hands out a locked buffer with the block's current value, and changes no block's value. */
    method Bread(dev: nat, blockno: nat) returns (ok: bool, b: nat)
      requires Valid() && dev != 0 && Key(dev, blockno) in disk
      requires forall i | 0 <= i < NBUF :: bufs[i].key == Key(dev, blockno) ==> !bufs[i].locked
      modifies this`disk, this`writes, bufs
      ensures Valid() && Flat() == old(Flat()) && disk == old(disk) && writes == old(writes)
      ensures ok <==> exists i :: 0 <= i < NBUF && (old(bufs[i]).key == Key(dev, blockno) || Free(old(bufs[i])))
      ensures !ok ==> bufs[..] == old(bufs[..])
      ensures ok ==> b < NBUF && bufs[b].key == Key(dev, blockno) && bufs[b].locked && bufs[b].valid
      ensures ok ==> bufs[b].data == old(Flat())[Key(dev, blockno)]
      ensures ok ==> bufs[..] == old(bufs[..])[b := bufs[b]]
      ensures ok ==> if old(bufs[b]).key == Key(dev, blockno)
                     then bufs[b].refcnt == old(bufs[b]).refcnt + 1 && bufs[b].dirty == old(bufs[b]).dirty
                     else && bufs[b].refcnt == 1 && !bufs[b].dirty && Free(old(bufs[b]))
                          && forall i | 0 <= i < NBUF :: old(bufs[i]).key != Key(dev, blockno)
    {
      ok, b := Bget(dev, blockno);
      if ok {
        ghost var was := bufs[..];
        LookupIs(was, disk, b);
        if !bufs[b].valid {
          Iderw(b);
        }
      }
    }

    /** `iderw` of memide.c on a locked buffer: write it if dirty, else read it. */
    method Iderw(b: nat)
      requires Valid() && b < NBUF && bufs[b].locked
      requires bufs[b].dirty || !bufs[b].valid
      modifies this`disk, this`writes, bufs
      ensures Valid() && Flat() == old(Flat())
      ensures writes == old(writes) + if old(bufs[b]).dirty then [Out(old(bufs[b]).key, old(bufs[b]).data)] else []
      ensures old(bufs[b]).dirty ==>
                && disk == old(disk)[old(bufs[b]).key := old(bufs[b]).data]
                && bufs[..] == old(bufs[..])[b := old(bufs[b]).(dirty := false)]
      ensures !old(bufs[b]).dirty ==>
                && disk == old(disk)
                && bufs[..] == old(bufs[..])[b := old(bufs[b]).(valid := true, data := disk[old(bufs[b]).key])]
    {
      ghost var was, d0 := bufs[..], disk;
      assert BufOk(was[b], disk);
      LookupIs(was, d0, b);
      var k := bufs[b].key;
      if bufs[b].dirty {
        ReplaceView(was, d0, b, bufs[b].(dirty := false), d0[k := bufs[b].data]);
        disk := disk[k := bufs[b].data];
        writes := writes + [Out(k, bufs[b].data)];
        bufs[b] := bufs[b].(dirty := false);
      } else {
        ReplaceView(was, d0, b, bufs[b].(valid := true, data := disk[k]), d0);
        bufs[b] := bufs[b].(valid := true, data := disk[k]);
      }
      assert bufs[..] == was[b := bufs[b]];
      assert View(bufs[..], disk) == View(was, d0);
    }

    /** The holder of a buffer changes its data: that block's value changes, and no other. */
    method Modify(b: nat, data: Data)
      requires Valid() && b < NBUF && bufs[b].locked && bufs[b].valid
      modifies bufs
      ensures Valid() && Flat() == old(Flat())[old(bufs[b]).key := data]
      ensures bufs[..] == old(bufs[..])[b := old(bufs[b]).(data := data)]
    {
      ghost var was := bufs[..];
      assert BufOk(was[b], disk);
      ReplaceView(was, disk, b, bufs[b].(data := data), disk);
      bufs[b] := bufs[b].(data := data);
      assert bufs[..] == was[b := bufs[b]];
    }

    /** What `log_write` does to the buffer: pin it. */
    method Pin(b: nat)
      requires Valid() && b < NBUF && bufs[b].locked && bufs[b].valid
      modifies bufs
      ensures Valid() && Flat() == old(Flat())
      ensures bufs[..] == old(bufs[..])[b := old(bufs[b]).(dirty := true)]
    {
      ghost var was := bufs[..];
      assert BufOk(was[b], disk);
      LookupIs(was, disk, b);
      ReplaceView(was, disk, b, bufs[b].(dirty := true), disk);
      bufs[b] := bufs[b].(dirty := true);
      assert bufs[..] == was[b := bufs[b]];
      assert View(bufs[..], disk) == View(was, disk);
    }

    /** `bwrite`: the disk gets the buffer's data; no value changes. */
    method Bwrite(b: nat)
      requires Valid() && b < NBUF && bufs[b].locked && bufs[b].valid
      modifies this`disk, this`writes, bufs
      ensures Valid() && Flat() == old(Flat())
      ensures disk == old(disk)[old(bufs[b]).key := old(bufs[b]).data]
      ensures writes == old(writes) + [Out(old(bufs[b]).key, old(bufs[b]).data)]
      ensures bufs[..] == old(bufs[..])[b := old(bufs[b]).(dirty := false)]
    {
      Pin(b);
      Iderw(b);
    }

    /** `brelse` by a holder that has logged or written what it changed. */
    method Brelse(b: nat)
      requires Valid() && b < NBUF && bufs[b].locked && bufs[b].valid
      requires bufs[b].dirty || bufs[b].data == disk[bufs[b].key]
      modifies this`order, bufs, next, prev
      ensures Valid() && Flat() == old(Flat())
      ensures bufs[..] == old(bufs[..])[b := old(bufs[b]).(locked := false, refcnt := old(bufs[b]).refcnt - 1)]
      ensures old(bufs[b]).refcnt > 1 ==> order == old(order)
      ensures old(bufs[b]).refcnt == 1 ==>
                exists p: nat :: p < NBUF && old(order)[p] == b && order == [b] + Without(old(order), p)
    {
      ghost var was := bufs[..];
      assert BufOk(was[b], disk);
      LookupIs(was, disk, b);
      ReplaceView(was, disk, b, bufs[b].(locked := false, refcnt := bufs[b].refcnt - 1), disk);
      bufs[b] := bufs[b].(locked := false, refcnt := bufs[b].refcnt - 1);
      assert bufs[..] == was[b := bufs[b]];
      assert View(bufs[..], disk) == View(was, disk);
      if bufs[b].refcnt == 0 {
        MoveToFront(b);
      }
    }

    /** The list surgery of `brelse`. */
    method MoveToFront(b: nat)
      requires Valid() && b < NBUF
      modifies this`order, next, prev
      ensures Valid()
      ensures exists p: nat :: p < NBUF && old(order)[p] == b && order == [b] + Without(old(order), p)
    {
      assert b in order;
      ghost var p: nat :| p < NBUF && order[p] == b;
      ghost var n0: seq<nat>, p0: seq<nat> := next[..], prev[..];
      ghost var rest := Without(order, p);
      UnlinkKeeps(n0, p0, order, p);
      prev[next[b]] := prev[b];
      next[prev[b]] := next[b];
      ghost var n1: seq<nat>, p1: seq<nat> := next[..], prev[..];
      assert p1 == p0[n0[b] := p0[b]] && n1 == n0[p0[b] := n0[b]];
      PushFrontKeeps(n1, p1, rest, b);
      next[b] := next[HEAD];
      prev[b] := HEAD;
      prev[next[HEAD]] := b;
      next[HEAD] := b;
      assert next[..] == n1[b := n1[HEAD]][HEAD := b];
      assert prev[..] == p1[b := HEAD][n1[HEAD] := b];
      forall x: nat | x < NBUF
        ensures x in [b] + rest
      {
        assert x in order;
        assert order == order[..p] + [b] + order[p + 1..];
      }
      order := [b] + rest;
    }
  }
}
