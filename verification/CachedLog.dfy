/**
 `commit` of log.c over the buffers of bio.c. The listed blocks are pinned, each in a buffer of its own, and every copy
 needs one buffer more: a commit of fewer than NBUF blocks finds it each time, and one of NBUF blocks panics in `bget`.
 */
module CachedLog {
  import opened Common
  import opened Blocks
  import opened BufferCache
  import L = Log

  /** Nobody holds a buffer. */
  ghost predicate Quiet(bufs: seq<Buf>) {
    forall i | 0 <= i < |bufs| :: bufs[i].refcnt == 0
  }

  /** The blocks whose buffers wait for a commit. */
  ghost function Pinned(bufs: seq<Buf>): (ks: set<Key>) {
    set i | 0 <= i < |bufs| && bufs[i].dirty :: bufs[i].key
  }

  ghost predicate Available(bufs: seq<Buf>, k: Key) {
    exists i :: 0 <= i < |bufs| && (bufs[i].key == k || Free(bufs[i]))
  }

  lemma PinnedLast(bufs: seq<Buf>, n: nat)
    requires |bufs| == n + 1
    ensures Pinned(bufs) == Pinned(bufs[..n]) + if bufs[n].dirty then {bufs[n].key} else {}
  {
  }

  lemma {:induction false} PinnedAtMost(bufs: seq<Buf>)
    ensures |Pinned(bufs)| <= |bufs|
  {
    if bufs != [] {
      var n := |bufs| - 1;
      PinnedAtMost(bufs[..n]);
      PinnedLast(bufs, n);
    }
  }

  lemma {:induction false} PinnedFewer(bufs: seq<Buf>, i: nat)
    requires i < |bufs| && !bufs[i].dirty
    ensures |Pinned(bufs)| < |bufs|
  {
    var n := |bufs| - 1;
    PinnedLast(bufs, n);
    if i == n {
      PinnedAtMost(bufs[..n]);
    } else {
      PinnedFewer(bufs[..n], i);
    }
  }

  lemma {:induction false} PinnedAll(bufs: seq<Buf>)
    requires Unique(bufs) && forall i | 0 <= i < |bufs| :: bufs[i].dirty && bufs[i].key.dev != 0
    ensures |Pinned(bufs)| == |bufs|
  {
    if bufs != [] {
      var n := |bufs| - 1;
      PinnedAll(bufs[..n]);
      PinnedLast(bufs, n);
    }
  }

  /** With no buffer held, `bget` finds one for a block that is not pinned exactly when fewer than all are pinned. */
  lemma RoomIff(bufs: seq<Buf>, disk: map<Key, Data>, k: Key)
    requires Coherent(bufs, disk) && Quiet(bufs) && k !in Pinned(bufs)
    ensures Available(bufs, k) <==> |Pinned(bufs)| < |bufs|
  {
    if forall i | 0 <= i < |bufs| :: bufs[i].dirty {
      forall i | 0 <= i < |bufs|
        ensures bufs[i].key.dev != 0 && bufs[i].key != k
      {
        assert BufOk(bufs[i], disk);
      }
      PinnedAll(bufs);
    } else {
      var i: nat :| i < |bufs| && !bufs[i].dirty;
      PinnedFewer(bufs, i);
    }
  }

  /** Off the pinned blocks the flat array is the disk. */
  lemma FlatIsDisk(bufs: seq<Buf>, disk: map<Key, Data>, k: Key)
    requires Coherent(bufs, disk) && Quiet(bufs) && k in disk && k !in Pinned(bufs)
    ensures View(bufs, disk)[k] == disk[k]
  {
    if i :| 0 <= i < |bufs| && Caches(bufs[i], k) {
      assert BufOk(bufs[i], disk);
      LookupIs(bufs, disk, i);
    }
  }

  // ------------------------------------------------------------------ one block at a time

  /** A pinned buffer, clean again, takes its block off the pinned ones; nothing else about two held buffers counts. */
  lemma PairEnds(was: seq<Buf>, disk: map<Key, Data>, now: seq<Buf>, a: nat, b: nat, to: Key)
    requires Coherent(was, disk) && Quiet(was) && a < |was| == |now| && b < |was| && a != b
    requires forall i | 0 <= i < |was| && i != a && i != b :: now[i] == was[i]
    requires now[a].refcnt == 0 && now[b].refcnt == 0 && now[b].key == was[b].key && now[a].key != now[b].key
    requires BufferFor(was, now[a].key, a) && now[a].dirty == (was[a].dirty && now[a].key != to)
    requires now[b].dirty == (was[b].dirty && now[b].key != to)
    requires to.dev != 0 && (to == now[a].key || to == now[b].key)
    ensures Quiet(now) && Pinned(now) == Pinned(was) - {to}
  {
    forall k: Key | k in Pinned(was) && k != to
      ensures k in Pinned(now)
    {
      var i :| 0 <= i < |was| && was[i].dirty && was[i].key == k;
      assert now[i].dirty && now[i].key == k;
    }
    forall k: Key | k in Pinned(now)
      ensures k in Pinned(was) && k != to
    {
      var i :| 0 <= i < |now| && now[i].dirty && now[i].key == k;
      assert was[i].dirty && was[i].key == k;
    }
  }

  /** A buffer that one thread holds, with the block's data. */
  ghost predicate Held(x: Buf, k: Key, data: Data, dirty: bool) {
    x == Buf(k, true, dirty, 1, true, data)
  }

  /** The buffer for block k: the one that has it, or a clean one if none has it. */
  ghost predicate BufferFor(was: seq<Buf>, k: Key, b: nat) {
    b < |was| && (was[b].key == k || (!was[b].dirty && forall i | 0 <= i < |was| :: was[i].key != k))
  }

  /** `bread` of a block that nobody holds. */
  method Hold(c: Bcache, dev: nat, blockno: nat) returns (ok: bool, b: nat)
    requires c.Valid() && dev != 0 && Key(dev, blockno) in c.disk
    requires forall i | 0 <= i < NBUF :: c.bufs[i].key == Key(dev, blockno) ==> c.bufs[i].refcnt == 0
    modifies c`disk, c`writes, c.bufs
    ensures c.Valid() && c.disk == old(c.disk) && c.Flat() == old(c.Flat()) && c.writes == old(c.writes)
    ensures ok <==> Available(old(c.bufs[..]), Key(dev, blockno))
    ensures !ok ==> c.bufs[..] == old(c.bufs[..])
    ensures ok ==> BufferFor(old(c.bufs[..]), Key(dev, blockno), b)
    ensures ok ==> forall i | 0 <= i < NBUF && i != b :: c.bufs[i] == old(c.bufs[i])
    ensures ok ==> var x := old(c.bufs[b]);
                   Held(c.bufs[b], Key(dev, blockno), old(c.Flat())[Key(dev, blockno)], x.key == Key(dev, blockno) && x.dirty)
  {
    ghost var was := c.bufs[..];
    assert forall i | 0 <= i < NBUF :: BufOk(was[i], c.disk);
    ok, b := c.Bread(dev, blockno);
  }

  /** The holder changes the data and writes the block. */
  method Overwrite(c: Bcache, b: nat, data: Data)
    requires c.Valid() && b < NBUF && c.bufs[b].locked && c.bufs[b].valid
    modifies c`disk, c`writes, c.bufs
    ensures c.Valid() && c.Flat() == old(c.Flat())[old(c.bufs[b]).key := data]
    ensures c.disk == old(c.disk)[old(c.bufs[b]).key := data]
    ensures c.writes == old(c.writes) + [Out(old(c.bufs[b]).key, data)]
    ensures c.bufs[..] == old(c.bufs[..])[b := old(c.bufs[b]).(data := data, dirty := false)]
  {
    c.Modify(b, data);
    c.Bwrite(b);
  }

  /** The only holder lets go. */
  method Release(c: Bcache, b: nat, ghost k: Key, ghost data: Data, ghost dirty: bool)
    requires c.Valid() && b < NBUF && Held(c.bufs[b], k, data, dirty) && k in c.disk && (dirty || data == c.disk[k])
    modifies c`order, c.bufs, c.next, c.prev
    ensures c.Valid() && c.Flat() == old(c.Flat())
    ensures c.bufs[..] == old(c.bufs[..])[b := Buf(k, true, dirty, 0, false, data)]
  {
    c.Brelse(b);
  }

  /** `bread` of a block whose buffer is pinned: there is nothing to wait or look for. */
  method HoldPinned(c: Bcache, dev: nat, home: nat, ghost j: nat) returns (ok: bool, b: nat)
    requires c.Valid() && dev != 0 && Key(dev, home) in c.disk
    requires j < NBUF && c.bufs[j].dirty && c.bufs[j].key == Key(dev, home) && c.bufs[j].refcnt == 0
    modifies c`disk, c`writes, c.bufs
    ensures c.Valid() && c.disk == old(c.disk) && c.Flat() == old(c.Flat()) && c.writes == old(c.writes)
    ensures ok && b == j && Held(c.bufs[b], Key(dev, home), old(c.Flat())[Key(dev, home)], true)
    ensures forall i | 0 <= i < NBUF && i != b :: c.bufs[i] == old(c.bufs[i])
  {
    ghost var was := c.bufs[..];
    assert was[j].key == Key(dev, home) && Available(was, Key(dev, home));
    ok, b := Hold(c, dev, home);
  }

  /** The two reads of a turn. The home block is pinned, so only the log block may find no buffer. */
  method HoldPair(c: Bcache, dev: nat, log: nat, home: nat) returns (ok: bool, a: nat, b: nat)
    requires c.Valid() && Quiet(c.bufs[..]) && dev != 0 && Key(dev, log) in c.disk && Key(dev, home) in c.disk
    requires Key(dev, home) in Pinned(c.bufs[..]) && Key(dev, log) !in Pinned(c.bufs[..])
    modifies c`disk, c`writes, c.bufs
    ensures c.Valid() && c.disk == old(c.disk) && c.Flat() == old(c.Flat()) && c.writes == old(c.writes)
    ensures ok <==> Available(old(c.bufs[..]), Key(dev, log))
    ensures ok ==> && BufferFor(old(c.bufs[..]), Key(dev, log), a) && !old(c.bufs[a]).dirty
                   && b < NBUF && a != b && old(c.bufs[b]).key == Key(dev, home) && old(c.bufs[b]).dirty
                   && Held(c.bufs[a], Key(dev, log), c.disk[Key(dev, log)], false)
                   && Held(c.bufs[b], Key(dev, home), old(c.Flat())[Key(dev, home)], true)
                   && forall i | 0 <= i < NBUF && i != a && i != b :: c.bufs[i] == old(c.bufs[i])
  {
    ghost var was := c.bufs[..];
    b := 0;
    ghost var j :| 0 <= j < NBUF && was[j].dirty && was[j].key == Key(dev, home);
    assert BufOk(was[j], c.disk);
    FlatIsDisk(was, c.disk, Key(dev, log));
    ok, a := Hold(c, dev, log);
    if ok {
      assert a != j && c.bufs[j] == was[j];
      ok, b := HoldPinned(c, dev, home, j);
    }
  }

  /** The copy between two held buffers, the write, and the two releases. */
  method Finish(c: Bcache, from: nat, to: nat, ghost k: Key, ghost h: Key, ghost data: Data, ghost dirty: bool)
    requires c.Valid() && from < NBUF && to < NBUF && from != to && k != h && k in c.disk && h in c.disk
    requires Held(c.bufs[from], k, data, dirty) && (dirty || data == c.disk[k])
    requires c.bufs[to].locked && c.bufs[to].valid && c.bufs[to].refcnt == 1 && c.bufs[to].key == h
    modifies c`disk, c`writes, c`order, c.bufs, c.next, c.prev
    ensures c.Valid() && c.disk == old(c.disk)[h := data] && c.Flat() == old(c.Flat())[h := data]
    ensures c.writes == old(c.writes) + [Out(h, data)]
    ensures c.bufs[from] == Buf(k, true, dirty, 0, false, data) && c.bufs[to] == Buf(h, true, false, 0, false, data)
    ensures forall i | 0 <= i < NBUF && i != from && i != to :: c.bufs[i] == old(c.bufs[i])
  {
    Overwrite(c, to, c.bufs[from].data);
    Release(c, from, k, data, dirty);
    Release(c, to, h, data, false);
  }

  /** Block `from` is copied to block `to`, in the flat array and on the disk; `to` is pinned no more. */
  ghost predicate Copied(bufs: seq<Buf>, disk: map<Key, Data>, bufs': seq<Buf>, disk': map<Key, Data>, from: Key, to: Key)
    requires from in disk
  {
    var data := View(bufs, disk)[from];
    && disk' == disk[to := data] && View(bufs', disk') == View(bufs, disk)[to := data]
    && Quiet(bufs') && Pinned(bufs') == Pinned(bufs) - {to}
  }

  /** One turn of `write_log`: it panics exactly when there is no buffer for the log block. */
  method CopyToLog(c: Bcache, dev: nat, log: nat, home: nat) returns (ok: bool)
    requires c.Valid() && Quiet(c.bufs[..]) && dev != 0 && Key(dev, log) in c.disk && Key(dev, home) in c.disk
    requires Key(dev, home) in Pinned(c.bufs[..]) && Key(dev, log) !in Pinned(c.bufs[..])
    modifies c`disk, c`writes, c`order, c.bufs, c.next, c.prev
    ensures c.Valid() && (ok <==> Available(old(c.bufs[..]), Key(dev, log)))
    ensures ok ==> Copied(old(c.bufs[..]), old(c.disk), c.bufs[..], c.disk, Key(dev, home), Key(dev, log))
    ensures c.writes == old(c.writes) + if ok then [Out(Key(dev, log), old(c.Flat())[Key(dev, home)])] else []
    ensures !ok ==> c.disk == old(c.disk)
  {
    ghost var was, d0, v0 := c.bufs[..], c.disk, c.Flat();
    ghost var k, h := Key(dev, log), Key(dev, home);
    var a, b;
    ok, a, b := HoldPair(c, dev, log, home);
    if ok {
      Finish(c, b, a, h, k, v0[h], true);
      PairEnds(was, d0, c.bufs[..], a, b, k);
    }
  }

  /** One turn of `install_trans` in a commit: likewise. */
  method CopyHome(c: Bcache, dev: nat, log: nat, home: nat) returns (ok: bool)
    requires c.Valid() && Quiet(c.bufs[..]) && dev != 0 && Key(dev, log) in c.disk && Key(dev, home) in c.disk
    requires Key(dev, home) in Pinned(c.bufs[..]) && Key(dev, log) !in Pinned(c.bufs[..])
    modifies c`disk, c`writes, c`order, c.bufs, c.next, c.prev
    ensures c.Valid() && (ok <==> Available(old(c.bufs[..]), Key(dev, log)))
    ensures ok ==> Copied(old(c.bufs[..]), old(c.disk), c.bufs[..], c.disk, Key(dev, log), Key(dev, home))
    ensures ok ==> c.writes == old(c.writes) + [Out(Key(dev, home), old(c.Flat())[Key(dev, log)])]
  {
    ghost var was, d0, v0 := c.bufs[..], c.disk, c.Flat();
    ghost var k, h := Key(dev, log), Key(dev, home);
    FlatIsDisk(was, d0, k);
    var a, b;
    ok, a, b := HoldPair(c, dev, log, home);
    if ok {
      Finish(c, a, b, k, h, v0[k], false);
      PairEnds(was, d0, c.bufs[..], a, b, h);
    }
  }

  // ------------------------------------------------------------------ the whole commit

  ghost predicate Covers(g: L.Geometry, dev: nat, m: map<Key, Data>) {
    forall b: nat | b < g.nblocks :: Key(dev, b) in m
  }

  /** The blocks of one device, as Log has them. */
  ghost function On(g: L.Geometry, dev: nat, m: map<Key, Data>): (d: L.Disk)
    requires Covers(g, dev, m)
    ensures |d| == g.nblocks
  {
    seq(g.nblocks, b requires 0 <= b < g.nblocks => m[Key(dev, b)])
  }

  lemma OnUpdate(g: L.Geometry, dev: nat, m: map<Key, Data>, b: nat, data: Data)
    requires Covers(g, dev, m) && b < g.nblocks
    ensures On(g, dev, m[Key(dev, b) := data]) == On(g, dev, m)[b := data]
  {
  }

  ghost function Keys(dev: nat, lh: seq<nat>): (ks: set<Key>) {
    set i | 0 <= i < |lh| :: Key(dev, lh[i])
  }

  lemma {:induction false} KeysCount(dev: nat, lh: seq<nat>)
    requires Distinct(lh)
    ensures |Keys(dev, lh)| == |lh|
  {
    if lh != [] {
      KeysRest(dev, lh);
      KeysCount(dev, lh[1..]);
      assert Keys(dev, lh) == Keys(dev, lh[1..]) + {Key(dev, lh[0])};
    }
  }

  lemma KeysRest(dev: nat, lh: seq<nat>)
    requires Distinct(lh) && lh != []
    ensures Key(dev, lh[0]) in Keys(dev, lh) && Keys(dev, lh[1..]) == Keys(dev, lh) - {Key(dev, lh[0])}
  {
    forall k: Key | k in Keys(dev, lh) && k != Key(dev, lh[0])
      ensures k in Keys(dev, lh[1..])
    {
      var i :| 0 <= i < |lh| && Key(dev, lh[i]) == k;
      assert lh[1..][i - 1] == lh[i];
    }
  }

  /** No log block is listed. */
  lemma LogNotListed(g: L.Geometry, dev: nat, lh: seq<nat>, b: nat)
    requires L.GoodList(g, lh) && g.start <= b < g.start + g.size
    ensures Key(dev, b) !in Keys(dev, lh)
  {
    assert forall i | 0 <= i < |lh| :: g.IsHome(lh[i]);
  }

  /** Nobody holds a buffer, and the listed blocks are the pinned ones. */
  ghost predicate Ready(bufs: seq<Buf>, disk: map<Key, Data>, g: L.Geometry, dev: nat, lh: seq<nat>) {
    && |bufs| == NBUF && Coherent(bufs, disk) && dev != 0 && Covers(g, dev, disk) && Quiet(bufs)
    && Distinct(lh) && Pinned(bufs) == Keys(dev, lh)
  }

  /** A block that is not listed finds a buffer exactly when the list is shorter than the cache. */
  lemma ReadyRoom(bufs: seq<Buf>, disk: map<Key, Data>, g: L.Geometry, dev: nat, lh: seq<nat>, k: Key)
    requires Ready(bufs, disk, g, dev, lh) && k !in Keys(dev, lh)
    ensures Available(bufs, k) <==> |lh| < NBUF
  {
    RoomIff(bufs, disk, k);
    KeysCount(dev, lh);
  }

  /** The disk and the flat array of the device are these. */
  ghost predicate Shows(c: Bcache, g: L.Geometry, dev: nat, lh: seq<nat>, d: L.Disk, v: L.Disk)
    reads c, c.bufs, c.next, c.prev
  {
    c.Valid() && Ready(c.bufs[..], c.disk, g, dev, lh) && On(g, dev, c.disk) == d && On(g, dev, c.Flat()) == v
  }

  /** Writes of the log, on the device. */
  ghost function Outs(dev: nat, ws: seq<L.Write>): (os: seq<Out>) {
    seq(|ws|, i requires 0 <= i < |ws| => Out(Key(dev, ws[i].addr), ws[i].data))
  }

  lemma OutsJoin(dev: nat, a: seq<L.Write>, b: seq<L.Write>)
    ensures Outs(dev, a + b) == Outs(dev, a) + Outs(dev, b)
  {
  }

  /** The first k of these writes have been issued. */
  ghost predicate Issued(before: seq<Out>, now: seq<Out>, dev: nat, ws: seq<L.Write>, k: nat) {
    k <= |ws| && now == before + Outs(dev, ws[..k])
  }

  lemma IssuedNext(before: seq<Out>, now: seq<Out>, dev: nat, ws: seq<L.Write>, k: nat, addr: nat, data: Data)
    requires Issued(before, now, dev, ws, k) && k < |ws| && ws[k] == L.Write(addr, data)
    ensures Issued(before, now + [Out(Key(dev, addr), data)], dev, ws, k + 1)
  {
    assert ws[..k + 1] == ws[..k] + [ws[k]];
  }

  /** One turn of `write_log` on the blocks of the device. */
  method LogTurn(c: Bcache, g: L.Geometry, dev: nat, lh: seq<nat>, tail: nat, ghost d: L.Disk, ghost v: L.Disk)
      returns (ok: bool)
    requires Shows(c, g, dev, lh, d, v) && L.GoodList(g, lh) && tail < |lh|
    modifies c`disk, c`writes, c`order, c.bufs, c.next, c.prev
    ensures c.Valid() && (ok <==> |lh| < NBUF)
    ensures |d| == |v| == g.nblocks && g.IsHome(lh[tail])
    ensures ok ==> var x := v[lh[tail]]; var b := g.start + 1 + tail;
                   Shows(c, g, dev, lh, d[b := x], v[b := x]) && c.writes == old(c.writes) + [Out(Key(dev, b), x)]
    ensures !ok ==> c.disk == old(c.disk) && c.writes == old(c.writes)
  {
    var log := g.start + tail + 1;
    assert g.IsHome(lh[tail]) && Key(dev, lh[tail]) in Keys(dev, lh);
    LogNotListed(g, dev, lh, log);
    ReadyRoom(c.bufs[..], c.disk, g, dev, lh, Key(dev, log));
    OnUpdate(g, dev, c.disk, log, v[lh[tail]]);
    OnUpdate(g, dev, c.Flat(), log, v[lh[tail]]);
    ok := CopyToLog(c, dev, log, lh[tail]);
  }

  /** The same in a run of `write_log` that started with d and v. */
  method LogStep(c: Bcache, g: L.Geometry, dev: nat, lh: seq<nat>, tail: nat, ghost d: L.Disk, ghost v: L.Disk,
                 ghost a: L.Disk, ghost va: L.Disk, ghost before: seq<Out>)
      returns (ok: bool, ghost r: L.Disk, ghost vr: L.Disk)
    requires Shows(c, g, dev, lh, a, va) && L.GoodList(g, lh) && tail < |lh| && |d| == |v| == g.nblocks
    requires L.CopiedToLog(g, d, v, lh, tail, a) && L.CopiedToLog(g, v, v, lh, tail, va)
    requires Issued(before, c.writes, dev, L.LogWrites(g, v, lh), tail)
    modifies c`disk, c`writes, c`order, c.bufs, c.next, c.prev
    ensures c.Valid() && (ok <==> |lh| < NBUF)
    ensures ok ==> Shows(c, g, dev, lh, r, vr) && Issued(before, c.writes, dev, L.LogWrites(g, v, lh), tail + 1)
    ensures ok ==> L.CopiedToLog(g, d, v, lh, tail + 1, r) && L.CopiedToLog(g, v, v, lh, tail + 1, vr)
    ensures !ok ==> c.disk == old(c.disk) && c.writes == old(c.writes)
  {
    ghost var b, x := g.start + 1 + tail, v[lh[tail]];
    IssuedNext(before, c.writes, dev, L.LogWrites(g, v, lh), tail, b, x);
    assert va[lh[tail]] == x;
    ok := LogTurn(c, g, dev, lh, tail, a, va);
    r, vr := a[b := x], va[b := x];
    if ok {
      L.CopiedToLogStep(g, d, v, lh, tail, a, r);
      L.CopiedToLogStep(g, v, v, lh, tail, va, vr);
    }
  }

  /** `write_log` over the cache: with NBUF blocks listed it panics in its first turn. */
  method WriteLog(c: Bcache, g: L.Geometry, dev: nat, lh: seq<nat>, ghost d: L.Disk, ghost v: L.Disk)
      returns (ok: bool, ghost a: L.Disk, ghost va: L.Disk)
    requires Shows(c, g, dev, lh, d, v) && L.GoodList(g, lh) && lh != []
    modifies c`disk, c`writes, c`order, c.bufs, c.next, c.prev
    ensures c.Valid() && (ok <==> |lh| < NBUF)
    ensures |d| == |v| == g.nblocks
    ensures ok ==> Shows(c, g, dev, lh, a, va)
    ensures ok ==> L.CopiedToLog(g, d, v, lh, |lh|, a) && L.CopiedToLog(g, v, v, lh, |lh|, va)
    ensures ok ==> c.writes == old(c.writes) + Outs(dev, L.LogWrites(g, v, lh))
    ensures !ok ==> c.disk == old(c.disk) && c.writes == old(c.writes)
  {
    ghost var before := c.writes;
    a, va := d, v;
    ok := true;
    var tail := 0;
    while tail < |lh|
      invariant tail <= |lh| && c.Valid() && ok && (tail > 0 ==> |lh| < NBUF)
      invariant Shows(c, g, dev, lh, a, va) && |d| == |v| == g.nblocks
      invariant L.CopiedToLog(g, d, v, lh, tail, a) && L.CopiedToLog(g, v, v, lh, tail, va)
      invariant Issued(before, c.writes, dev, L.LogWrites(g, v, lh), tail) && (tail == 0 ==> c.disk == old(c.disk))
    {
      ok, a, va := LogStep(c, g, dev, lh, tail, d, v, a, va, before);
      if !ok {
        return;
      }
      tail := tail + 1;
    }
    assert L.LogWrites(g, v, lh)[..tail] == L.LogWrites(g, v, lh);
  }

  lemma RestListed(g: L.Geometry, dev: nat, lh: seq<nat>, tail: nat)
    requires L.GoodList(g, lh) && tail < |lh|
    ensures L.GoodList(g, lh[tail..]) && lh[tail..][0] == lh[tail] && lh[tail..][1..] == lh[tail + 1..]
    ensures Key(dev, lh[tail]) in Keys(dev, lh[tail..]) && g.IsHome(lh[tail])
    ensures Keys(dev, lh[tail + 1..]) == Keys(dev, lh[tail..]) - {Key(dev, lh[tail])}
  {
    KeysRest(dev, lh[tail..]);
  }

  /** One turn of `install_trans` in a commit; with room in the cache it does not panic. */
  method HomeTurn(c: Bcache, g: L.Geometry, dev: nat, lh: seq<nat>, tail: nat, ghost d: L.Disk, ghost v: L.Disk)
      returns (ok: bool)
    requires L.GoodList(g, lh) && tail < |lh| < NBUF && Shows(c, g, dev, lh[tail..], d, v)
    modifies c`disk, c`writes, c`order, c.bufs, c.next, c.prev
    ensures ok && |d| == |v| == g.nblocks && g.IsHome(lh[tail])
    ensures var x := v[g.start + 1 + tail]; Shows(c, g, dev, lh[tail + 1..], d[lh[tail] := x], v[lh[tail] := x])
    ensures c.writes == old(c.writes) + [Out(Key(dev, lh[tail]), v[g.start + 1 + tail])]
  {
    var log := g.start + tail + 1;
    ghost var rest := lh[tail..];
    RestListed(g, dev, lh, tail);
    LogNotListed(g, dev, rest, log);
    ReadyRoom(c.bufs[..], c.disk, g, dev, rest, Key(dev, log));
    OnUpdate(g, dev, c.disk, lh[tail], v[log]);
    OnUpdate(g, dev, c.Flat(), lh[tail], v[log]);
    ok := CopyHome(c, dev, log, lh[tail]);
  }

  /** `install_trans` over the cache: every block goes home and its buffer is free again. */
  method InstallTrans(c: Bcache, g: L.Geometry, dev: nat, lh: seq<nat>, ghost d: L.Disk, ghost v: L.Disk)
      returns (ok: bool, ghost a: L.Disk, ghost va: L.Disk)
    requires Shows(c, g, dev, lh, d, v) && L.GoodList(g, lh) && |lh| < NBUF
    modifies c`disk, c`writes, c`order, c.bufs, c.next, c.prev
    ensures ok && Shows(c, g, dev, [], a, va) && |d| == |v| == g.nblocks
    ensures L.CopiedHome(g, d, v, lh, |lh|, a) && L.CopiedHome(g, v, v, lh, |lh|, va)
    ensures c.writes == old(c.writes) + Outs(dev, L.InstallWrites(g, v, lh))
  {
    ghost var ws, before := L.InstallWrites(g, v, lh), c.writes;
    a, va := d, v;
    ok := true;
    var tail := 0;
    assert lh[0..] == lh;
    while tail < |lh|
      invariant tail <= |lh| && ok && Shows(c, g, dev, lh[tail..], a, va) && |d| == |v| == g.nblocks
      invariant L.CopiedHome(g, d, v, lh, tail, a) && L.CopiedHome(g, v, v, lh, tail, va)
      invariant Issued(before, c.writes, dev, ws, tail)
    {
      IssuedNext(before, c.writes, dev, ws, tail, lh[tail], v[g.start + 1 + tail]);
      L.LogBlockKept(g, v, v, lh, tail, va);
      ok := HomeTurn(c, g, dev, lh, tail, a, va);
      ghost var b, x := lh[tail], v[g.start + 1 + tail];
      L.CopiedHomeStep(g, d, v, lh, tail, a, a[b := x]);
      L.CopiedHomeStep(g, v, v, lh, tail, va, va[b := x]);
      a, va := a[b := x], va[b := x];
      tail := tail + 1;
    }
    assert lh[tail..] == [] && ws[..tail] == ws;
  }

  /** A block that is not pinned, read, written and released, leaves the pinned ones alone. */
  lemma SingleEnds(was: seq<Buf>, disk: map<Key, Data>, a: nat, x: Buf)
    requires Coherent(was, disk) && Quiet(was) && BufferFor(was, x.key, a) && x.key !in Pinned(was)
    requires x.refcnt == 0 && !x.dirty
    ensures Quiet(was[a := x]) && Pinned(was[a := x]) == Pinned(was)
  {
    var now := was[a := x];
    assert !was[a].dirty;
    forall k: Key | k in Pinned(was)
      ensures k in Pinned(now)
    {
      var i :| 0 <= i < |was| && was[i].dirty && was[i].key == k;
      assert now[i] == was[i];
    }
    forall k: Key | k in Pinned(now)
      ensures k in Pinned(was)
    {
      var i :| 0 <= i < |now| && now[i].dirty && now[i].key == k;
      assert now[i] == was[i];
    }
  }

  /** `write_head` over the cache. */
  method WriteHead(c: Bcache, g: L.Geometry, dev: nat, lh: seq<nat>, list: seq<nat>, ghost d: L.Disk, ghost v: L.Disk)
      returns (ok: bool)
    requires Shows(c, g, dev, lh, d, v) && L.GoodList(g, lh) && |lh| < NBUF
    requires L.Listable(list) && |v| == g.nblocks && |v[g.start]| == BSIZE
    modifies c`disk, c`writes, c`order, c.bufs, c.next, c.prev
    ensures ok && |d| == g.nblocks
    ensures var x := L.HeadBlock(v[g.start], list);
            && Shows(c, g, dev, lh, d[g.start := x], v[g.start := x])
            && c.writes == old(c.writes) + [Out(Key(dev, g.start), x)]
  {
    ghost var was, d0, k := c.bufs[..], c.disk, Key(dev, g.start);
    LogNotListed(g, dev, lh, g.start);
    ReadyRoom(was, d0, g, dev, lh, k);
    var a;
    ok, a := Hold(c, dev, g.start);
    var hb := L.HeadBlock(c.bufs[a].data, list);
    OnUpdate(g, dev, c.disk, g.start, hb);
    OnUpdate(g, dev, c.Flat(), g.start, hb);
    Overwrite(c, a, hb);
    Release(c, a, k, hb, false);
    SingleEnds(was, d0, a, c.bufs[a]);
    assert c.bufs[..] == was[a := c.bufs[a]];
  }

  /** The writes of the four phases, one after another, are those of the crash theorems. */
  lemma PhaseWrites(g: L.Geometry, dev: nat, head: Block, view: L.Disk, lh: seq<nat>, src: L.Disk, before: seq<Out>)
    requires L.GoodList(g, lh) && |view| == |src| == g.nblocks && |head| == BSIZE && lh != []
    requires forall i {:trigger lh[i]} | 0 <= i < |lh| :: src[g.start + 1 + i] == view[lh[i]]
    ensures before + Outs(dev, L.LogWrites(g, view, lh)) + [Out(Key(dev, g.start), L.HeadBlock(head, lh))]
            + Outs(dev, L.InstallWrites(g, src, lh)) + [Out(Key(dev, g.start), L.Cleared(head, lh))]
            == before + Outs(dev, L.CommitWrites(g, head, view, lh))
  {
    var a, b := L.LogWrites(g, view, lh), [L.Write(g.start, L.HeadBlock(head, lh))];
    var c, d := L.InstallWrites(g, src, lh), [L.Write(g.start, L.Cleared(head, lh))];
    L.CommitWritesSplit(g, head, view, lh, src, []);
    assert [] + a + b + c + d == a + b + c + d && [] + L.CommitWrites(g, head, view, lh) == a + b + c + d;
    OutsJoin(dev, a + b + c, d);
    OutsJoin(dev, a + b, c);
    OutsJoin(dev, a, b);
  }

  /**
   `commit` over the cache issues exactly the writes of the crash theorems, in their order, and leaves no buffer pinned,
   if the list is shorter than the cache. A list of NBUF blocks, which log_write admits, makes it panic before the first
   write.
   */
  method Commit(c: Bcache, g: L.Geometry, dev: nat, lh: seq<nat>, ghost d: L.Disk, ghost v: L.Disk) returns (ok: bool)
    requires Shows(c, g, dev, lh, d, v) && L.CommitReady(g, d, v, lh) && lh != []
    modifies c`disk, c`writes, c`order, c.bufs, c.next, c.prev
    ensures c.Valid() && (ok <==> |lh| < NBUF)
    ensures ok ==> var ws := L.CommitWrites(g, d[g.start], v, lh);
                   var r := L.After(d, ws, |ws|);
                   c.writes == old(c.writes) + Outs(dev, ws) && Shows(c, g, dev, [], r, r)
    ensures !ok ==> c.disk == old(c.disk) && c.writes == old(c.writes)
  {
    ghost var head, before := d[g.start], c.writes;
    assert v[g.start] == head by {
      assert g.start !in lh;
    }
    ghost var a, va;
    ok, a, va := WriteLog(c, g, dev, lh, d, v);
    if ok {
      ok := AfterLog(c, g, dev, lh, d, v, a, va, head, before);
    }
  }

  /** What is left of a commit once the listed blocks are in the log. */
  method AfterLog(c: Bcache, g: L.Geometry, dev: nat, lh: seq<nat>, ghost d: L.Disk, ghost v: L.Disk, ghost a: L.Disk,
                  ghost va: L.Disk, ghost head: Block, ghost before: seq<Out>) returns (ok: bool)
    requires L.CommitReady(g, d, v, lh) && lh != [] && |lh| < NBUF && head == d[g.start] == v[g.start]
    requires Shows(c, g, dev, lh, a, va) && c.writes == before + Outs(dev, L.LogWrites(g, v, lh))
    requires L.CopiedToLog(g, d, v, lh, |lh|, a) && L.CopiedToLog(g, v, v, lh, |lh|, va)
    modifies c`disk, c`writes, c`order, c.bufs, c.next, c.prev
    ensures ok
    ensures var ws := L.CommitWrites(g, head, v, lh);
            var r := L.After(d, ws, |ws|); c.writes == before + Outs(dev, ws) && Shows(c, g, dev, [], r, r)
  {
    ghost var full, clear := L.HeadBlock(head, lh), L.Cleared(head, lh);
    ghost var b, vb := a[g.start := full], va[g.start := full];
    ok := WriteHead(c, g, dev, lh, lh, a, va);
    ghost var e, ve;
    ok, e, ve := InstallTrans(c, g, dev, lh, b, vb);
    L.CommitEnds(g, d, v, lh, a, va, b, vb, e, ve, L.CommitWrites(g, head, v, lh));
    PhaseWrites(g, dev, head, v, lh, vb, before);
    ok := WriteHead(c, g, dev, [], [], e, ve);
  }
}
