/**
 The allocator of umalloc.c, after section 8.7 of The C Programming Language: malloc, free and morecore over a
 circular list of free blocks kept in address order.

 Addresses count headers (8 bytes), so `p + p->s.size` is plain addition. `mem` holds the headers, and `base` is
 the static list head of size 0, which lies below everything sbrk returns. The list is described by a sequence of
 blocks in address order, starting with base; the pointers form one circle through it with a single wrap.

 `HeapOk` is what every call keeps: the list is ordered with a gap between any two blocks, so it is fully merged;
 live blocks lie apart from each other and from free ones; and an address is free or live exactly if sbrk gave it.
 The class `Heap` has the code, with the list, the live blocks and what sbrk gave as ghost fields.
 */
module Umalloc {
  import opened Common

  const HEADER_BYTES: nat := 8
  const NULL: int := 0

  datatype Header = Header(ptr: int, size: nat)

  datatype Block = Block(addr: int, size: nat)

  // ------------------------------------------------------------------ free lists as sequences

  /** Address order, with a gap after every block: neighbours have been merged. Only the head has size 0. */
  ghost predicate Ordered(f: seq<Block>) {
    && |f| >= 1 && f[0].size == 0
    && (forall i | 1 <= i < |f| :: f[i].size >= 1)
    && (forall i, j | 0 <= i < j < |f| :: f[i].addr + f[i].size < f[j].addr)
  }

  /** The units of a block. */
  ghost predicate In(x: int, b: Block) {
    b.addr <= x < b.addr + b.size
  }

  ghost predicate Covered(f: seq<Block>, x: int) {
    exists i :: 0 <= i < |f| && In(x, f[i])
  }

  ghost predicate Apart(a: Block, b: Block) {
    a.addr + a.size <= b.addr || b.addr + b.size <= a.addr
  }

  /** Where b belongs: after block i and before the next one, touching neither inside. */
  ghost predicate Fits(f: seq<Block>, i: int, b: Block) {
    && 0 <= i < |f| && b.size >= 1
    && f[i].addr < b.addr && f[i].addr + f[i].size <= b.addr
    && (i + 1 < |f| ==> b.addr + b.size <= f[i + 1].addr)
  }

  /** The first half of `free`: put b after block i, or grow the block above downwards if b touches it. */
  ghost function LinkAt(f: seq<Block>, i: nat, b: Block): (r: seq<Block>)
    requires Fits(f, i, b)
  {
    if i + 1 < |f| && b.addr + b.size == f[i + 1].addr
    then f[i + 1 := Block(b.addr, b.size + f[i + 1].size)]
    else f[..i + 1] + [b] + f[i + 1..]
  }

  /** The second half: merge block i with the next one if they touch. */
  ghost function MergeAt(f: seq<Block>, i: nat): (r: seq<Block>)
    requires i + 1 < |f|
  {
    if f[i].addr + f[i].size == f[i + 1].addr
    then f[..i] + [Block(f[i].addr, f[i].size + f[i + 1].size)] + f[i + 2..]
    else f
  }

  ghost function InsertAt(f: seq<Block>, i: nat, b: Block): (r: seq<Block>)
    requires Fits(f, i, b)
  {
    MergeAt(LinkAt(f, i, b), i)
  }

  /** In order, except that block i may touch the next one. */
  ghost predicate AlmostOrdered(f: seq<Block>, i: nat) {
    && i + 1 < |f| && f[0].size == 0
    && (forall k | 1 <= k < |f| :: f[k].size >= 1)
    && (forall j, k | 0 <= j < k < |f| ::
          f[j].addr + f[j].size < f[k].addr || (j == i && k == i + 1 && f[j].addr + f[j].size == f[k].addr))
    && f[i].addr < f[i + 1].addr
  }

  lemma LinkOrderedPair(f: seq<Block>, i: nat, b: Block, j: nat, k: nat)
    requires Ordered(f) && Fits(f, i, b) && j < k < |LinkAt(f, i, b)|
    ensures var r := LinkAt(f, i, b);
            r[j].addr + r[j].size < r[k].addr || (j == i && k == i + 1 && r[j].addr + r[j].size == r[k].addr)
  {
    var r := LinkAt(f, i, b);
    if j < i {
      assert f[j].addr + f[j].size < f[i].addr;
    }
    if |r| == |f| {
      if k > i + 1 {
        assert r[k] == f[k];
        assert j <= i ==> r[j] == f[j];
      }
    } else if k > i + 1 {
      assert r[k] == f[k - 1];
      if j <= i {
        assert r[j] == f[j];
      } else if j > i + 1 {
        assert r[j] == f[j - 1];
      } else {
        assert k - 1 > i + 1 ==> f[i + 1].addr + f[i + 1].size < f[k - 1].addr;
      }
    } else {
      assert r[j] == f[j];
    }
  }

  lemma LinkOrdered(f: seq<Block>, i: nat, b: Block)
    requires Ordered(f) && Fits(f, i, b)
    ensures AlmostOrdered(LinkAt(f, i, b), i) && LinkAt(f, i, b)[..i + 1] == f[..i + 1]
  {
    var r := LinkAt(f, i, b);
    forall j, k | 0 <= j < k < |r|
      ensures r[j].addr + r[j].size < r[k].addr || (j == i && k == i + 1 && r[j].addr + r[j].size == r[k].addr)
    {
      LinkOrderedPair(f, i, b, j, k);
    }
  }

  lemma MergeOrdered(f: seq<Block>, i: nat)
    requires AlmostOrdered(f, i)
    ensures Ordered(MergeAt(f, i)) && MergeAt(f, i)[0].addr == f[0].addr
  {
    var r := MergeAt(f, i);
    if |r| < |f| {
      assert i > 0;
      assert forall k | 0 <= k < i :: r[k] == f[k];
      assert forall k | i < k < |r| :: r[k] == f[k + 1];
    }
  }

  lemma LinkCovers(f: seq<Block>, i: nat, b: Block, x: int)
    requires Fits(f, i, b)
    ensures Covered(LinkAt(f, i, b), x) <==> Covered(f, x) || In(x, b)
  {
    var r := LinkAt(f, i, b);
    if In(x, b) {
      assert In(x, r[i + 1]);
    }
    if k :| 0 <= k < |f| && In(x, f[k]) {
      assert In(x, r[if k <= i || |r| == |f| then k else k + 1]);
    }
    if k :| 0 <= k < |r| && In(x, r[k]) && !In(x, b) {
      assert In(x, f[if k <= i || |r| == |f| then k else k - 1]);
    }
  }

  lemma MergeCovers(f: seq<Block>, i: nat, x: int)
    requires i + 1 < |f|
    ensures Covered(MergeAt(f, i), x) <==> Covered(f, x)
  {
    var r := MergeAt(f, i);
    if k :| 0 <= k < |f| && In(x, f[k]) {
      assert In(x, r[if k <= i || |r| == |f| then k else k - 1]);
    }
    if k :| 0 <= k < |r| && In(x, r[k]) {
      if |r| < |f| && k == i {
        assert In(x, f[i]) || In(x, f[i + 1]);
      } else {
        assert In(x, f[if k < i || |r| == |f| then k else k + 1]);
      }
    }
  }

  /** Freeing keeps the order and the merging, and adds exactly the units of the block. */
  lemma InsertKeeps(f: seq<Block>, i: nat, b: Block)
    requires Ordered(f) && Fits(f, i, b)
    ensures Ordered(InsertAt(f, i, b)) && InsertAt(f, i, b)[0].addr == f[0].addr
    ensures forall x :: Covered(InsertAt(f, i, b), x) <==> Covered(f, x) || In(x, b)
  {
    LinkOrdered(f, i, b);
    assert LinkAt(f, i, b)[..i + 1][0] == f[..i + 1][0];
    MergeOrdered(LinkAt(f, i, b), i);
    forall x
      ensures Covered(InsertAt(f, i, b), x) <==> Covered(f, x) || In(x, b)
    {
      LinkCovers(f, i, b, x);
      MergeCovers(LinkAt(f, i, b), i, x);
    }
  }

  /** `malloc`: take n units off the end of block i. */
  ghost function TakeAt(f: seq<Block>, i: nat, n: nat): (r: seq<Block>)
    requires 1 <= i < |f| && 1 <= n <= f[i].size
  {
    if f[i].size == n then f[..i] + f[i + 1..] else f[i := Block(f[i].addr, f[i].size - n)]
  }

  ghost function Taken(f: seq<Block>, i: nat, n: nat): (b: Block)
    requires 1 <= i < |f| && 1 <= n <= f[i].size
  {
    Block(f[i].addr + f[i].size - n, n)
  }

  lemma TakeOrdered(f: seq<Block>, i: nat, n: nat)
    requires Ordered(f) && 1 <= i < |f| && 1 <= n <= f[i].size
    ensures Ordered(TakeAt(f, i, n)) && TakeAt(f, i, n)[0] == f[0]
  {
  }

  /** Allocating removes exactly the units of the block it returns. */
  lemma TakeCovers(f: seq<Block>, i: nat, n: nat, x: int)
    requires Ordered(f) && 1 <= i < |f| && 1 <= n <= f[i].size
    ensures Covered(TakeAt(f, i, n), x) <==> Covered(f, x) && !In(x, Taken(f, i, n))
  {
    var r, b := TakeAt(f, i, n), Taken(f, i, n);
    if k :| 0 <= k < |f| && In(x, f[k]) {
      if k < i {
        assert f[k].addr + f[k].size < f[i].addr;
        assert r[k] == f[k];
      } else if k > i {
        assert f[i].addr + f[i].size < f[k].addr;
        assert r[k + |r| - |f|] == f[k];
      } else if !In(x, b) {
        assert In(x, r[i]);
      }
    }
    if k :| 0 <= k < |r| && In(x, r[k]) {
      if k < i {
        assert r[k] == f[k];
        assert f[k].addr + f[k].size < f[i].addr;
      } else {
        var j := k + |f| - |r|;
        assert r[k] == f[j] || (k == i && |r| == |f|);
        assert In(x, f[j]);
        assert j > i ==> f[i].addr + f[i].size < f[j].addr;
      }
    }
  }

  // ------------------------------------------------------------------ the list in memory

  ghost function Succ(f: seq<Block>, i: nat): (a: int)
    requires i < |f|
  {
    if i + 1 < |f| then f[i + 1].addr else f[0].addr
  }

  ghost predicate NodeOk(mem: map<int, Header>, f: seq<Block>, i: nat)
    requires i < |f|
  {
    f[i].addr in mem && mem[f[i].addr] == Header(Succ(f, i), f[i].size)
  }

  /** The headers form the circle of f. */
  ghost predicate Linked(mem: map<int, Header>, f: seq<Block>) {
    forall i: nat | i < |f| :: NodeOk(mem, f, i)
  }

  /** The headers after the first half of `free`, with block i already pointing at b. */
  ghost function LinkedHeaders(mem: map<int, Header>, p: int, b: Block): (m: map<int, Header>)
    requires p in mem && mem[p].ptr in mem
  {
    var up := mem[mem[p].ptr];
    var h := if b.addr + b.size == mem[p].ptr then Header(up.ptr, b.size + up.size) else Header(mem[p].ptr, b.size);
    mem[b.addr := h][p := Header(b.addr, mem[p].size)]
  }

  lemma NextInMemory(mem: map<int, Header>, f: seq<Block>, i: nat, b: Block)
    requires Ordered(f) && Fits(f, i, b) && Linked(mem, f)
    ensures NodeOk(mem, f, i) && mem[f[i].addr].ptr in mem
    ensures NodeOk(mem, f, if i + 1 < |f| then i + 1 else 0)
    ensures b.addr + b.size == mem[f[i].addr].ptr <==> i + 1 < |f| && b.addr + b.size == f[i + 1].addr
  {
    assert NodeOk(mem, f, i);
    assert NodeOk(mem, f, if i + 1 < |f| then i + 1 else 0);
    assert i > 0 ==> f[0].addr + f[0].size < f[i].addr;
  }

  lemma LinkedNodeNew(mem: map<int, Header>, f: seq<Block>, i: nat, b: Block)
    requires Ordered(f) && Fits(f, i, b) && Linked(mem, f)
    requires f[i].addr in mem && mem[f[i].addr].ptr in mem
    ensures NodeOk(LinkedHeaders(mem, f[i].addr, b), LinkAt(f, i, b), i)
    ensures NodeOk(LinkedHeaders(mem, f[i].addr, b), LinkAt(f, i, b), i + 1)
  {
    var r := LinkAt(f, i, b);
    NextInMemory(mem, f, i, b);
    assert r[0].addr == f[0].addr && Succ(r, i) == b.addr;
    assert Succ(r, i + 1) == if |r| == |f| then Succ(f, i + 1) else Succ(f, i);
  }

  lemma LinkedNodeOld(mem: map<int, Header>, f: seq<Block>, i: nat, b: Block, k: nat)
    requires Ordered(f) && Fits(f, i, b) && Linked(mem, f)
    requires f[i].addr in mem && mem[f[i].addr].ptr in mem
    requires k < |LinkAt(f, i, b)| && k != i && k != i + 1
    ensures NodeOk(LinkedHeaders(mem, f[i].addr, b), LinkAt(f, i, b), k)
  {
    var r := LinkAt(f, i, b);
    var j := if k < i then k else k + |f| - |r|;
    assert NodeOk(mem, f, j) && r[k] == f[j];
    assert r[0].addr == f[0].addr && Succ(r, k) == Succ(f, j);
    if k < i {
      assert f[k].addr + f[k].size < f[i].addr;
    } else {
      assert f[i].addr + f[i].size < f[j].addr;
      assert j > i + 1 ==> f[i + 1].addr + f[i + 1].size < f[j].addr;
    }
  }

  lemma LinkInMemory(mem: map<int, Header>, f: seq<Block>, i: nat, b: Block)
    requires Ordered(f) && Fits(f, i, b) && Linked(mem, f)
    ensures f[i].addr in mem && mem[f[i].addr].ptr in mem
    ensures Linked(LinkedHeaders(mem, f[i].addr, b), LinkAt(f, i, b))
  {
    NextInMemory(mem, f, i, b);
    forall k: nat | k < |LinkAt(f, i, b)|
      ensures NodeOk(LinkedHeaders(mem, f[i].addr, b), LinkAt(f, i, b), k)
    {
      if k == i || k == i + 1 {
        LinkedNodeNew(mem, f, i, b);
      } else {
        LinkedNodeOld(mem, f, i, b, k);
      }
    }
  }

  lemma MergeInMemory(mem: map<int, Header>, f: seq<Block>, i: nat)
    requires AlmostOrdered(f, i) && Linked(mem, f)
    ensures NodeOk(mem, f, i) && NodeOk(mem, f, i + 1)
    ensures var p, q := f[i].addr, f[i + 1].addr;
            && (f[i].addr + f[i].size == q ==>
                  Linked(mem[p := Header(mem[q].ptr, mem[p].size + mem[q].size)], MergeAt(f, i)))
  {
    var p, q, r := f[i].addr, f[i + 1].addr, MergeAt(f, i);
    assert NodeOk(mem, f, i) && NodeOk(mem, f, i + 1);
    if p + f[i].size == q {
      assert i > 0;
      var m := mem[p := Header(mem[q].ptr, mem[p].size + mem[q].size)];
      forall k: nat | k < |r|
        ensures NodeOk(m, r, k)
      {
        if k < i {
          assert NodeOk(mem, f, k);
          assert f[k].addr + f[k].size < p;
        } else if k > i {
          assert NodeOk(mem, f, k + 1) && r[k] == f[k + 1];
          assert f[i].addr + f[i].size < f[k + 1].addr;
        }
      }
    }
  }

  /** The headers after `free` of b behind p, as the code computes them. */
  ghost function FreeHeaders(mem: map<int, Header>, p: int, b: Block): (m: map<int, Header>)
    requires p in mem && mem[p].ptr in mem
  {
    var up := mem[mem[p].ptr];
    var h := if b.addr + b.size == mem[p].ptr then Header(up.ptr, b.size + up.size) else Header(mem[p].ptr, b.size);
    var m1 := mem[b.addr := h];
    if p + m1[p].size == b.addr then m1[p := Header(h.ptr, m1[p].size + h.size)] else m1[p := m1[p].(ptr := b.addr)]
  }

  lemma FreeInMemory(mem: map<int, Header>, f: seq<Block>, i: nat, b: Block)
    requires Ordered(f) && Fits(f, i, b) && Linked(mem, f)
    ensures f[i].addr in mem && mem[f[i].addr].ptr in mem && f[i].addr != b.addr && mem[f[i].addr].size == f[i].size
    ensures Linked(FreeHeaders(mem, f[i].addr, b), InsertAt(f, i, b))
    ensures InsertAt(f, i, b)[i].addr == f[i].addr
  {
    var p, link := f[i].addr, LinkAt(f, i, b);
    LinkInMemory(mem, f, i, b);
    NextInMemory(mem, f, i, b);
    LinkOrdered(f, i, b);
    var m := LinkedHeaders(mem, p, b);
    MergeInMemory(m, link, i);
    assert link[i] == link[..i + 1][i] == f[i] && link[i + 1].addr == b.addr;
    var r := FreeHeaders(mem, p, b);
    if p + f[i].size == b.addr {
      assert r == m[p := Header(m[b.addr].ptr, m[p].size + m[b.addr].size)];
    } else {
      assert r == m;
    }
  }

  lemma TakeInMemory(mem: map<int, Header>, f: seq<Block>, i: nat, n: nat, h: Header)
    requires Ordered(f) && Linked(mem, f) && 1 <= i < |f| && 1 <= n <= f[i].size
    ensures NodeOk(mem, f, i) && NodeOk(mem, f, i - 1)
    ensures f[i].size == n ==> Linked(mem[f[i - 1].addr := Header(mem[f[i].addr].ptr, f[i - 1].size)], TakeAt(f, i, n))
    ensures f[i].size > n ==>
              var q := f[i].addr + f[i].size - n;
              Linked(mem[f[i].addr := Header(mem[f[i].addr].ptr, f[i].size - n)][q := h], TakeAt(f, i, n))
  {
    var r := TakeAt(f, i, n);
    assert NodeOk(mem, f, i) && NodeOk(mem, f, i - 1);
    if f[i].size == n {
      var m := mem[f[i - 1].addr := Header(mem[f[i].addr].ptr, f[i - 1].size)];
      forall k: nat | k < |r|
        ensures NodeOk(m, r, k)
      {
        assert NodeOk(mem, f, if k < i then k else k + 1);
        assert k < i - 1 ==> f[k].addr + f[k].size < f[i - 1].addr;
        assert k >= i ==> f[i - 1].addr + f[i - 1].size < f[k + 1].addr;
      }
    } else {
      var q := f[i].addr + f[i].size - n;
      var m := mem[f[i].addr := Header(mem[f[i].addr].ptr, f[i].size - n)][q := h];
      forall k: nat | k < |r|
        ensures NodeOk(m, r, k)
      {
        assert NodeOk(mem, f, k);
        assert k < i ==> f[k].addr + f[k].size < f[i].addr;
        assert k > i ==> f[i].addr + f[i].size < f[k].addr;
      }
    }
  }

  // ------------------------------------------------------------------ the heap

  ghost predicate LiveCovered(live: map<int, nat>, x: int) {
    exists a :: a in live && In(x, Block(a, live[a]))
  }

  /** A block that is in nobody else's way. */
  ghost predicate ClearOf(f: seq<Block>, live: map<int, nat>, b: Block) {
    && (forall i | 1 <= i < |f| :: Apart(f[i], b))
    && (forall a | a in live && a != b.addr :: Apart(Block(a, live[a]), b))
  }

  /** A live allocation: its header is intact and it overlaps neither free blocks nor other allocations. */
  ghost predicate LiveOk(base: int, mem: map<int, Header>, f: seq<Block>, live: map<int, nat>, brk: int, a: int)
    requires a in live
  {
    && live[a] >= 1 && base < a && a + live[a] <= brk
    && a in mem && mem[a].size == live[a]
    && ClearOf(f, live, Block(a, live[a]))
  }

  ghost predicate HeapOk(base: int, mem: map<int, Header>, f: seq<Block>, live: map<int, nat>,
                         obtained: seq<Block>, brk: int)
  {
    && Ordered(f) && f[0].addr == base && Linked(mem, f)
    && base < brk && (forall x {:trigger Covered(f, x)} :: Covered(f, x) ==> x < brk)
    && (forall a | a in live :: LiveOk(base, mem, f, live, brk, a))
    && (forall x :: Covered(obtained, x) <==> Covered(f, x) || LiveCovered(live, x))
  }

  /** The block of f below address a. */
  ghost predicate IsBelow(f: seq<Block>, t: int, a: int) {
    0 <= t < |f| && f[t].addr < a && (t + 1 < |f| ==> a < f[t + 1].addr)
  }

  lemma {:induction false} FindBelow(f: seq<Block>, b: Block, n: nat) returns (t: nat)
    requires Ordered(f) && 1 <= n <= |f| && f[0].addr < b.addr && b.size >= 1
    requires forall i | 1 <= i < |f| :: Apart(f[i], b)
    requires n < |f| ==> b.addr < f[n].addr
    ensures IsBelow(f, t, b.addr) && Fits(f, t, b)
    decreases n
  {
    t := n - 1;
    if f[t].addr >= b.addr {
      assert Apart(f[t], b);
      t := FindBelow(f, b, n - 1);
    } else {
      assert t > 0 ==> Apart(f[t], b);
      assert t + 1 < |f| ==> Apart(f[t + 1], b);
    }
  }

  lemma BelowUnique(f: seq<Block>, t: int, u: int, a: int)
    requires Ordered(f) && IsBelow(f, t, a) && IsBelow(f, u, a)
    ensures t == u
  {
  }

  /** Blocks without a common unit are apart. */
  lemma ApartByUnits(c: Block, d: Block)
    requires c.size >= 1 && d.size >= 1 && !In(c.addr, d) && !In(d.addr, c)
    ensures Apart(c, d)
  {
  }

  /** A block none of whose units is covered is apart from every free block. */
  lemma ApartByCover(f: seq<Block>, d: Block)
    requires Ordered(f) && d.size >= 1 && forall x | In(x, d) :: !Covered(f, x)
    ensures forall i | 1 <= i < |f| :: Apart(f[i], d)
  {
    forall i | 1 <= i < |f|
      ensures Apart(f[i], d)
    {
      if In(f[i].addr, d) {
        assert In(f[i].addr, f[i]);
      }
      if In(d.addr, f[i]) {
        assert Covered(f, d.addr);
      }
      ApartByUnits(f[i], d);
    }
  }

  lemma UncoveredIfApart(f: seq<Block>, d: Block, x: int)
    requires Ordered(f) && In(x, d) && forall i | 1 <= i < |f| :: Apart(f[i], d)
    ensures !Covered(f, x)
  {
  }

  /** An allocation stays sound when the free list changes away from it. */
  lemma LiveStays(base: int, mem: map<int, Header>, f: seq<Block>, live: map<int, nat>, brk: int, a: int,
                  mem': map<int, Header>, r: seq<Block>, live': map<int, nat>)
    requires a in live && LiveOk(base, mem, f, live, brk, a) && Ordered(f) && Ordered(r)
    requires a in live' && live'[a] == live[a] && a in mem' && mem'[a] == mem[a]
    requires forall x | In(x, Block(a, live[a])) :: Covered(r, x) ==> Covered(f, x)
    requires forall c | c in live' && c != a :: Apart(Block(c, live'[c]), Block(a, live[a]))
    ensures LiveOk(base, mem', r, live', brk, a)
  {
    var d := Block(a, live[a]);
    forall x | In(x, d)
      ensures !Covered(r, x)
    {
      UncoveredIfApart(f, d, x);
    }
    ApartByCover(r, d);
  }

  /** Returning allocation b to the free list keeps the heap sound. */
  lemma FreeKeeps(base: int, mem: map<int, Header>, f: seq<Block>, live: map<int, nat>, obtained: seq<Block>, brk: int,
                  i: nat, b: Block, mem': map<int, Header>)
    requires HeapOk(base, mem, f, live, obtained, brk)
    requires b.addr in live && live[b.addr] == b.size && Fits(f, i, b)
    requires Linked(mem', InsertAt(f, i, b))
    requires forall x | x in mem && x != b.addr && x != f[i].addr :: x in mem' && mem'[x] == mem[x]
    ensures HeapOk(base, mem', InsertAt(f, i, b), live - {b.addr}, obtained, brk)
  {
    var r, live' := InsertAt(f, i, b), live - {b.addr};
    InsertKeeps(f, i, b);
    assert LiveOk(base, mem, f, live, brk, b.addr);
    forall a | a in live'
      ensures LiveOk(base, mem', r, live', brk, a)
    {
      assert LiveOk(base, mem, f, live, brk, a);
      assert i > 0 ==> Apart(f[i], Block(a, live[a]));
      assert Apart(Block(a, live[a]), b);
      LiveStays(base, mem, f, live, brk, a, mem', r, live');
    }
    forall x
      ensures Covered(obtained, x) <==> Covered(r, x) || LiveCovered(live', x)
    {
      LiveWithout(live, b, x);
    }
  }

  lemma FreeStep(base: int, mem: map<int, Header>, f: seq<Block>, live: map<int, nat>, obtained: seq<Block>, brk: int,
                 i: nat, b: Block)
    requires HeapOk(base, mem, f, live, obtained, brk)
    requires b.addr in live && live[b.addr] == b.size && Fits(f, i, b)
    ensures var p, r := f[i].addr, InsertAt(f, i, b);
            && base <= p && p in mem && mem[p].ptr in mem && p != b.addr
            && HeapOk(base, FreeHeaders(mem, p, b), r, live - {b.addr}, obtained, brk)
            && OnList(r, p)
  {
    FreeInMemory(mem, f, i, b);
    assert i > 0 ==> f[0].addr + f[0].size < f[i].addr;
    FreeKeeps(base, mem, f, live, obtained, brk, i, b, FreeHeaders(mem, f[i].addr, b));
  }

  lemma LiveWithout(live: map<int, nat>, b: Block, x: int)
    requires b.addr in live && live[b.addr] == b.size
    ensures LiveCovered(live, x) <==> LiveCovered(live - {b.addr}, x) || In(x, b)
  {
    var live' := live - {b.addr};
    if a :| a in live && In(x, Block(a, live[a])) {
      assert a != b.addr ==> a in live' && In(x, Block(a, live'[a]));
    }
    if a :| a in live' && In(x, Block(a, live'[a])) {
      assert a in live && In(x, Block(a, live[a]));
    }
  }

  /** Taking n units off block i as a new allocation keeps the heap sound. */
  lemma TakeKeeps(base: int, mem: map<int, Header>, f: seq<Block>, live: map<int, nat>, obtained: seq<Block>, brk: int,
                  i: nat, n: nat, mem': map<int, Header>)
    requires HeapOk(base, mem, f, live, obtained, brk)
    requires 1 <= i < |f| && 1 <= n <= f[i].size
    requires Linked(mem', TakeAt(f, i, n))
    requires var b := Taken(f, i, n); b.addr in mem' && mem'[b.addr].size == n
    requires forall a | a in live :: a in mem' && mem'[a] == mem[a]
    ensures Taken(f, i, n).addr !in live
    ensures HeapOk(base, mem', TakeAt(f, i, n), live[Taken(f, i, n).addr := n], obtained, brk)
  {
    var r, b := TakeAt(f, i, n), Taken(f, i, n);
    TakeOrdered(f, i, n);
    forall x
      ensures Covered(r, x) <==> Covered(f, x) && !In(x, b)
    {
      TakeCovers(f, i, n, x);
    }
    assert f[0].addr + f[0].size < f[i].addr;
    forall a | a in live
      ensures Apart(Block(a, live[a]), b) && a != b.addr
    {
      assert LiveOk(base, mem, f, live, brk, a) && Apart(f[i], Block(a, live[a]));
    }
    assert In(b.addr + n - 1, f[i]);
    assert Covered(f, b.addr + n - 1);
    var live' := live[b.addr := n];
    ApartByCover(r, b);
    assert ClearOf(r, live', b);
    forall a | a in live'
      ensures LiveOk(base, mem', r, live', brk, a)
    {
      if a != b.addr {
        assert LiveOk(base, mem, f, live, brk, a);
        LiveStays(base, mem, f, live, brk, a, mem', r, live');
      }
    }
    forall x
      ensures Covered(obtained, x) <==> Covered(r, x) || LiveCovered(live', x)
    {
      assert live' - {b.addr} == live;
      LiveWithout(live', b, x);
      assert In(x, b) ==> In(x, f[i]);
    }
  }

  /** The headers after `malloc` of n units from p, which follows prevp on the list. */
  ghost function TakeHeaders(mem: map<int, Header>, prevp: int, p: int, n: nat): (m: map<int, Header>)
    requires prevp in mem && p in mem && mem[p].size >= n
  {
    if mem[p].size == n then mem[prevp := Header(mem[p].ptr, mem[prevp].size)]
    else
      var q, m1 := p + mem[p].size - n, mem[p := Header(mem[p].ptr, mem[p].size - n)];
      m1[q := Header(if q in m1 then m1[q].ptr else 0, n)]
  }

  lemma TakeStep(base: int, mem: map<int, Header>, f: seq<Block>, live: map<int, nat>, obtained: seq<Block>, brk: int,
                 i: nat, n: nat)
    requires HeapOk(base, mem, f, live, obtained, brk) && 1 <= i < |f| && 1 <= n <= f[i].size
    ensures var prevp, p, b := f[i - 1].addr, f[i].addr, Taken(f, i, n);
            && NodeOk(mem, f, i - 1) && NodeOk(mem, f, i) && base <= prevp && base < b.addr && b.addr !in live
            && HeapOk(base, TakeHeaders(mem, prevp, p, n), TakeAt(f, i, n), live[b.addr := n], obtained, brk)
            && OnList(TakeAt(f, i, n), prevp)
  {
    var prevp, p, b := f[i - 1].addr, f[i].addr, Taken(f, i, n);
    var q := b.addr;
    TakeInMemory(mem, f, i, n, Header(if q in mem && q != p then mem[q].ptr else 0, n));
    var m, r := TakeHeaders(mem, prevp, p, n), TakeAt(f, i, n);
    assert r[i - 1].addr == prevp;
    assert f[i - 1].addr + f[i - 1].size < f[i].addr;
    assert i > 1 ==> f[0].addr + f[0].size < f[i - 1].addr;
    assert f[i].size > n ==> q != p;
    forall a | a in live
      ensures a in m && m[a] == mem[a]
    {
      assert LiveOk(base, mem, f, live, brk, a) && Apart(f[i], Block(a, live[a]));
      assert i > 1 ==> Apart(f[i - 1], Block(a, live[a]));
    }
    TakeKeeps(base, mem, f, live, obtained, brk, i, n, m);
  }

  /** Memory from sbrk joins as one allocation. */
  lemma GrowKeeps(base: int, mem: map<int, Header>, f: seq<Block>, live: map<int, nat>, obtained: seq<Block>, brk: int,
                  b: Block, mem': map<int, Header>)
    requires HeapOk(base, mem, f, live, obtained, brk)
    requires b.size >= 1 && b.addr >= brk
    requires b.addr in mem' && mem'[b.addr].size == b.size
    requires forall x | x in mem && x != b.addr :: x in mem' && mem'[x] == mem[x]
    ensures b.addr !in live
    ensures HeapOk(base, mem', f, live[b.addr := b.size], obtained + [b], b.addr + b.size)
  {
    var live', obtained' := live[b.addr := b.size], obtained + [b];
    forall a | a in live
      ensures LiveOk(base, mem, f, live, brk, a) && a != b.addr && Apart(Block(a, live[a]), b)
    {
    }
    forall x | In(x, b)
      ensures !Covered(f, x)
    {
    }
    ApartByCover(f, b);
    forall k: nat | k < |f|
      ensures NodeOk(mem', f, k)
    {
      assert NodeOk(mem, f, k);
      assert k > 0 ==> Apart(f[k], b);
    }
    forall a | a in live'
      ensures LiveOk(base, mem', f, live', b.addr + b.size, a)
    {
    }
    forall x
      ensures Covered(obtained', x) <==> Covered(f, x) || LiveCovered(live', x)
    {
      assert live' - {b.addr} == live;
      LiveWithout(live', b, x);
      CoveredAppend(obtained, b, x);
    }
  }

  lemma CoveredAppend(f: seq<Block>, b: Block, x: int)
    ensures Covered(f + [b], x) <==> Covered(f, x) || In(x, b)
  {
    if i :| 0 <= i < |f| && In(x, f[i]) {
      assert In(x, (f + [b])[i]);
    }
    if In(x, b) {
      assert In(x, (f + [b])[|f|]);
    }
  }

  // ------------------------------------------------------------------ requests

  /** The units for a request, in uint arithmetic: one header more than the bytes need. */
  function Units(nbytes: nat): (n: nat)
    ensures n >= 1
  {
    ((nbytes + HEADER_BYTES - 1) % UINT) / HEADER_BYTES + 1
  }

  /**
   The units after the header hold the bytes asked for unless the sum wraps around, and no fewer would. If it does, there
   are none.
   */
  lemma PayloadFitsIff(nbytes: nat)
    requires nbytes < UINT
    ensures (Units(nbytes) - 1) * HEADER_BYTES >= nbytes <==> nbytes + HEADER_BYTES - 1 < UINT
    ensures nbytes + HEADER_BYTES - 1 < UINT && nbytes > 0 ==> (Units(nbytes) - 2) * HEADER_BYTES < nbytes
    ensures nbytes + HEADER_BYTES - 1 >= UINT || nbytes == 0 ==> Units(nbytes) == 1
  {
  }

  lemma UnitsBound(nbytes: nat)
    ensures Units(nbytes) <= UINT / HEADER_BYTES
  {
  }

  // ------------------------------------------------------------------ sbrk

  /** An unsigned word taken as an int. */
  function Signed(w: nat): int {
    if w < UINT / 2 then w else w - UINT
  }

  /** What sbrk does: -1 and nothing else; -1 with every page of the process gone; or the process has another size. */
  datatype Break = Refused | Emptied | Moved(size: nat)

  /**
   sbrk(n) for a process of sz bytes. `room` tells whether allocuvm finds the pages. A negative n shrinks the process,
   unless it is larger than the process: then the sum wraps around, deallocuvm does nothing, and sbrk succeeds. When it
   shrinks the process to nothing, deallocuvm has freed every page and growproc takes the new size 0 for a failure.
   */
  function Sbrk(sz: nat, n: int, room: bool): Break
    requires sz < KERNBASE && -(UINT / 2) <= n < UINT / 2
  {
    if n > 0 then if sz + n < KERNBASE && room then Moved(sz + n) else Refused
    else if n < 0 then
      var to := if sz + n >= 0 then sz + n else sz + n + UINT;
      var z := if to >= sz then sz else to;
      if z == 0 then Emptied else Moved(z)
    else Moved(sz)
  }

  /** The units that morecore asks for, and the int it passes to sbrk for them. */
  function Asked(nu: nat): nat {
    if nu < 4096 then 4096 else nu
  }

  function SbrkArg(n: nat): (k: int)
    ensures -(UINT / 2) <= k < UINT / 2
  {
    Signed(n * HEADER_BYTES % UINT)
  }

  /** The byte count is a positive int. */
  predicate CountFits(n: nat) {
    n * HEADER_BYTES < UINT / 2
  }

  /**
   sbrk adds the bytes asked for to the process or leaves it as it is if and only if their count is a positive int. If it
   is not, sbrk is never refused: the process loses memory, or keeps its size although sbrk succeeds.
   */
  lemma SbrkGivesIff(sz: nat, n: nat, room: bool)
    requires 0 < sz < KERNBASE && 1 <= n <= UINT / HEADER_BYTES
    ensures var b := Sbrk(sz, SbrkArg(n), room);
            && (b.Refused? || b == Moved(sz + n * HEADER_BYTES) <==> CountFits(n))
            && (!CountFits(n) ==> b.Emptied? || (b.Moved? && b.size <= sz))
            && (CountFits(n) ==> (b.Refused? <==> sz + n * HEADER_BYTES >= KERNBASE || !room))
  {
  }

  /** The requests whose byte count fits when the heap has to grow; the last seven wrap around to one unit. */
  lemma CountFitsIff(nbytes: nat)
    requires nbytes < UINT
    ensures CountFits(Asked(Units(nbytes))) <==> nbytes <= 0x7fff_fff0 || nbytes > UINT - HEADER_BYTES
  {
  }

  /** A request for half of memory: sbrk succeeds and gives nothing, whatever there is room for. */
  lemma HalfOfMemory(sz: nat, room: bool)
    requires 0 < sz < 0x7fff_fff8
    ensures Sbrk(sz, SbrkArg(Asked(Units(0x8000_0000))), room) == Moved(sz)
  {
  }

  /** Every process has eight requests for which morecore frees all of its pages and malloc returns NULL. */
  lemma EmptyingRequests(sz: nat, nbytes: nat, room: bool)
    requires 0 < sz < KERNBASE && sz % HEADER_BYTES == 0 && nbytes < UINT
    ensures Sbrk(sz, SbrkArg(Asked(Units(nbytes))), room).Emptied? <==> UINT - sz - 15 <= nbytes <= UINT - sz - 8
  {
  }

  ghost predicate OnList(f: seq<Block>, p: int) {
    exists c :: 0 <= c < |f| && f[c].addr == p
  }

  ghost predicate SomeFit(f: seq<Block>, n: nat) {
    exists i :: 0 <= i < |f| && f[i].size >= n
  }

  class Heap {
    const base: int
    var mem: map<int, Header>
    var freep: int
    ghost var f: seq<Block>
    ghost var live: map<int, nat>
    ghost var obtained: seq<Block>
    /** The end of what the heap has, in headers. */
    ghost var brk: int
    /** The size of the process in bytes, and the bytes it has pages for. */
    var sz: nat
    var mapped: nat

    /** Before the first malloc, freep is NULL and nothing has been obtained. */
    ghost predicate Valid()
      reads this
    {
      && 0 < base < brk && brk * HEADER_BYTES <= sz == mapped < KERNBASE && sz % HEADER_BYTES == 0
      && (if freep == NULL then f == [Block(base, 0)] && live == map[] && obtained == []
          else HeapOk(base, mem, f, live, obtained, brk) && OnList(f, freep))
    }

    ghost function Now(): Contents
      reads this
    {
      Contents(f, live, obtained)
    }

    constructor (base: int, sz: nat)
      requires 0 < base < sz / HEADER_BYTES && sz < KERNBASE && sz % HEADER_BYTES == 0
      ensures Valid() && freep == NULL && this.base == base && this.sz == sz
    {
      this.base, mem, freep, this.sz, mapped := base, map[], NULL, sz, sz;
      f, live, obtained, brk := [Block(base, 0)], map[], [], base + 1;
    }

    /** sbrk: growproc sets the size and the pages. */
    method DoSbrk(n: int, room: bool) returns (b: Break)
      requires sz < KERNBASE && -(UINT / 2) <= n < UINT / 2
      modifies this`sz, this`mapped
      ensures b == Sbrk(old(sz), n, room)
      ensures sz == (if b.Moved? then b.size else old(sz))
      ensures mapped == (if b.Moved? then b.size else if b.Emptied? then 0 else old(mapped))
    {
      b := Sbrk(sz, n, room);
      match b
      case Refused =>
      case Emptied => mapped := 0;
      case Moved(to) => sz, mapped := to, to;
    }

    /**
     The program may call sbrk too. The heap stays sound if and only if the process keeps the memory that the heap has
     and ends on a header's boundary.
     */
    method ProgramSbrk(n: int, room: bool) returns (addr: Option)
      requires Valid() && -(UINT / 2) <= n < UINT / 2
      modifies this`sz, this`mapped
      ensures addr == if Sbrk(old(sz), n, room).Moved? then Some(old(sz)) else None
      ensures sz == (var b := Sbrk(old(sz), n, room); if b.Moved? then b.size else old(sz))
      ensures Valid() <==> !Sbrk(old(sz), n, room).Emptied? && brk * HEADER_BYTES <= sz && sz % HEADER_BYTES == 0
    {
      addr := Some(sz);
      var b := DoSbrk(n, room);
      if !b.Moved? {
        addr := None;
      }
    }

    /** The search loop of `free`: the list block below bp. */
    method FindPlace(bp: int, ghost b: Block) returns (p: int, ghost i: nat)
      requires Valid() && freep != NULL
      requires bp == b.addr && b.size >= 1 && base < bp && forall k | 1 <= k < |f| :: Apart(f[k], b)
      ensures Fits(f, i, b) && p == f[i].addr
      ensures OnList(f, p) && p < bp && forall k | 0 <= k < |f| && f[k].addr < bp :: f[k].addr <= p
    {
      ghost var t := FindBelow(f, b, |f|);
      p := freep;
      ghost var c: nat :| c < |f| && f[c].addr == freep;
      assert NodeOk(mem, f, c);
      while !(bp > p && bp < mem[p].ptr)
        invariant c < |f| && p == f[c].addr && NodeOk(mem, f, c)
        decreases if c <= t then t - c else t - c + |f|
      {
        if p >= mem[p].ptr && (bp > p || bp < mem[p].ptr) {
          break;
        }
        c := if c + 1 < |f| then c + 1 else 0;
        p := mem[p].ptr;
        assert NodeOk(mem, f, c);
      }
      assert c + 1 == |f| ==> mem[p].ptr == base;
      assert IsBelow(f, c, bp);
      BelowUnique(f, c, t, bp);
      i := t;
    }

    /** `free` of a pointer that malloc returned and that is still allocated. */
    method Free(ap: int)
      requires Valid() && freep != NULL && ap - 1 in live
      modifies this`mem, this`freep, this`f, this`live
      ensures Valid() && freep != NULL
      ensures live == old(live) - {ap - 1}
      ensures Inserted(old(f), Block(ap - 1, old(live)[ap - 1]), f, freep)
    {
      var bp := ap - 1;
      ghost var b := Block(bp, live[bp]);
      assert LiveOk(base, mem, f, live, brk, bp);
      ghost var i;
      var p;
      p, i := FindPlace(bp, b);
      FreeStep(base, mem, f, live, obtained, brk, i, b);
      Relink(p, bp);
      freep := p;
      f, live := InsertAt(f, i, b), live - {bp};
    }

    /** The pointer surgery of `free`. */
    method Relink(p: int, bp: int)
      requires p in mem && bp in mem && mem[p].ptr in mem && p != bp
      modifies this`mem
      ensures mem == FreeHeaders(old(mem), p, Block(bp, old(mem)[bp].size))
    {
      if bp + mem[bp].size == mem[p].ptr {
        mem := mem[bp := Header(mem[mem[p].ptr].ptr, mem[bp].size + mem[mem[p].ptr].size)];
      } else {
        mem := mem[bp := Header(mem[p].ptr, mem[bp].size)];
      }
      if p + mem[p].size == bp {
        mem := mem[p := Header(mem[bp].ptr, mem[p].size + mem[bp].size)];
      } else {
        mem := mem[p := mem[p].(ptr := bp)];
      }
    }

    /**
     `morecore`: at least 4096 units from sbrk, handed to `free`. On a byte count that is no positive int the process has
     lost its pages (`Gone`), or the source goes on with memory that sbrk has not given; the model stops there (`Wild`).
     */
    method Morecore(nu: nat, room: bool) returns (r: Growth)
      requires Valid() && freep != NULL && 1 <= nu <= UINT / HEADER_BYTES
      modifies this`mem, this`freep, this`f, this`live, this`obtained, this`brk, this`sz, this`mapped
      ensures r.Wild? || r.Gone? <==> !CountFits(Asked(nu))
      ensures CountFits(Asked(nu)) ==> Valid() && freep != NULL && Grows(nu, room, old(sz), old(Now()), sz, Now(), r)
      ensures r.Failed? ==> freep == old(freep) && mem == old(mem) && brk == old(brk)
      ensures !CountFits(Asked(nu)) ==> Ruins(nu, room, old(sz), sz, mapped, Valid(), r.Gone?)
    {
      var n := Asked(nu);
      SbrkGivesIff(sz, n, room);
      var hp := sz / HEADER_BYTES;
      var got := DoSbrk(SbrkArg(n), room);
      if !got.Moved? {
        return if got.Refused? then Failed else Gone;
      }
      if !CountFits(n) {
        return Wild;
      }
      FreeCore(hp, n, nu);
      r := More;
    }

    /** The end of `morecore`: n units from hp on, which sbrk has given, go to `free`. */
    method FreeCore(hp: int, n: nat, ghost nu: nat)
      requires Valid() && freep != NULL && 1 <= nu <= n && brk <= hp && (hp + n) * HEADER_BYTES <= sz
      modifies this`mem, this`freep, this`f, this`live, this`obtained, this`brk
      ensures Valid() && freep != NULL && live == old(live) && obtained == old(obtained) + [Block(hp, n)]
      ensures SomeFit(f, nu) && (!SomeFit(old(f), nu) ==> OnlyTop(f, nu, hp + n))
    {
      BelowCore(base, mem, f, live, obtained, brk, hp);
      AddCore(hp, n);
      FreeTop(hp, n, nu);
      assert live == old(live);
    }

    /** `free` of a block above all blocks of the list. */
    method FreeTop(hp: int, n: nat, ghost nu: nat)
      requires Valid() && freep != NULL && hp in live && live[hp] == n && 1 <= nu <= n && Ordered(f)
      requires forall i | 0 <= i < |f| :: f[i].addr + f[i].size <= hp
      modifies this`mem, this`freep, this`f, this`live
      ensures Valid() && freep != NULL && live == old(live) - {hp}
      ensures SomeFit(f, nu) && (!SomeFit(old(f), nu) ==> OnlyTop(f, nu, hp + n))
    {
      ghost var was := f;
      Free(hp + 1);
      CoreFits(was, Block(hp, n), f, freep, nu);
    }

    /** The memory counts as allocated until it is freed. */
    method AddCore(hp: int, n: nat)
      requires Valid() && freep != NULL && n >= 1 && brk <= hp && (hp + n) * HEADER_BYTES <= sz
      modifies this`mem, this`live, this`obtained, this`brk
      ensures Valid() && hp !in old(live) && live == old(live)[hp := n] && obtained == old(obtained) + [Block(hp, n)]
    {
      var m := mem[hp := Header(0, n)];
      GrowKeeps(base, mem, f, live, obtained, brk, Block(hp, n), m);
      mem := m;
      live, obtained, brk := live[hp := n], obtained + [Block(hp, n)], hp + n;
    }

    /** Allocate from the block p that fits: unlink it, or cut n units off its end. */
    method Take(prevp: int, p: int, n: nat, ghost i: nat) returns (q: int)
      requires Valid() && freep != NULL && 1 <= i < |f| && 1 <= n <= f[i].size
      requires f[i - 1].addr == prevp && f[i].addr == p
      modifies this`mem, this`freep, this`f, this`live
      ensures Valid() && freep != NULL
      ensures q > 0 && q !in old(live) && live == old(live)[q := n]
      ensures f == TakeAt(old(f), i, n) && q == Taken(old(f), i, n).addr && freep == prevp
    {
      TakeStep(base, mem, f, live, obtained, brk, i, n);
      ghost var m := TakeHeaders(mem, prevp, p, n);
      q := p;
      if mem[p].size == n {
        mem := mem[prevp := Header(mem[p].ptr, mem[prevp].size)];
      } else {
        mem := mem[p := Header(mem[p].ptr, mem[p].size - n)];
        q := q + mem[p].size;
        mem := mem[q := Header(if q in mem then mem[q].ptr else 0, n)];
      }
      assert mem == m;
      freep := prevp;
      f, live := TakeAt(f, i, n), live[q := n];
    }

    /** The first call sets up the list of the head alone. */
    method Begin()
      requires Valid()
      modifies this`mem, this`freep
      ensures Valid() && freep != NULL
      ensures if old(freep) != NULL then mem == old(mem) && freep == old(freep) else freep == base
    {
      if freep == NULL {
        freep := base;
        mem := mem[base := Header(base, 0)];
        assert NodeOk(mem, f, 0);
        assert f[0].addr == freep;
      }
    }

    /** One round of the list from behind freep: the first block that fits, and the one before it. */
    method Search(n: nat) returns (prevp: int, p: int, found: bool, ghost i: nat)
      requires Valid() && freep != NULL && n >= 1
      ensures found <==> SomeFit(f, n)
      ensures found ==> 1 <= i < |f| && f[i - 1].addr == prevp && f[i].addr == p && FirstFit(f, freep, i, n)
    {
      prevp, found, i := freep, false, 0;
      ghost var v := 0;
      ghost var s := SearchStarts(base, mem, f, live, obtained, brk, freep, n);
      p := mem[prevp].ptr;
      while true
        invariant Searching(f, s, v, freep, prevp, p, n)
        decreases |f| - v
      {
        SearchMeets(base, mem, f, live, obtained, brk, s, v, freep, prevp, p, n);
        if mem[p].size >= n {
          return prevp, p, true, Turn(f, s, v);
        }
        if p == freep {
          return prevp, p, false, 0;
        }
        v := v + 1;
        prevp := p;
        p := mem[p].ptr;
      }
    }

    /** Allocate in one round of the list, if a block fits. */
    method Round(n: nat) returns (q: int)
      requires Valid() && freep != NULL && n >= 1
      modifies this`mem, this`freep, this`f, this`live
      ensures Valid() && freep != NULL && (q != NULL <==> SomeFit(old(f), n))
      ensures q == NULL ==> live == old(live) && f == old(f)
      ensures q != NULL ==> q > 0 && q !in old(live) && live == old(live)[q := n] && TakenFrom(old(f), f, n, q, freep, old(freep))
    {
      var prevp, p, found, i := Search(n);
      if !found {
        return NULL;
      }
      q := Take(prevp, p, n, i);
    }

    /**
     `malloc`: the first block that fits, from the one after freep on, or one more round after growing the heap. The heap
     stays sound if and only if a block fits or the byte count for sbrk is a positive int, and then malloc fails exactly
     when nothing fits and sbrk refuses. Otherwise (`wild`) it hands out memory that the process does not have, or returns
     NULL from a process that has no page left.
     */
    method Malloc(nbytes: nat, room: bool) returns (r: int, wild: bool)
      requires Valid() && nbytes < UINT
      modifies this`mem, this`freep, this`f, this`live, this`obtained, this`brk, this`sz, this`mapped
      ensures wild <==> !SomeFit(old(f), Units(nbytes)) && !CountFits(Asked(Units(nbytes)))
      ensures !wild ==> Valid() && freep != NULL
      ensures !wild ==> Allocates(Units(nbytes), room, old(sz), Start(old(freep), base), old(Now()), sz, freep, Now(), r)
      ensures wild ==> Ruins(Units(nbytes), room, old(sz), sz, mapped, Valid(), r == NULL)
    {
      UnitsBound(nbytes);
      r, wild := MallocUnits(Units(nbytes), room);
    }

    /** The rest of `malloc`, for n units: it goes round the list twice at most. */
    method MallocUnits(n: nat, room: bool) returns (r: int, wild: bool)
      requires Valid() && 1 <= n <= UINT / HEADER_BYTES
      modifies this`mem, this`freep, this`f, this`live, this`obtained, this`brk, this`sz, this`mapped
      ensures wild <==> !SomeFit(old(f), n) && !CountFits(Asked(n))
      ensures !wild ==> Valid() && freep != NULL
      ensures !wild ==> Allocates(n, room, old(sz), Start(old(freep), base), old(Now()), sz, freep, Now(), r)
      ensures wild ==> Ruins(n, room, old(sz), sz, mapped, Valid(), r == NULL)
    {
      ghost var x, start, was := Now(), Start(freep, base), sz;
      wild := false;
      Begin();
      ghost var grown := false;
      while true
        invariant Valid() && freep != NULL && Going(n, room, was, start, x, sz, freep, Now(), grown)
        decreases !grown
      {
        r := TakeOnce(n, room, was, start, x, grown);
        if r != NULL {
          return;
        }
        var m := GrowOnce(n, room, start);
        if !m.More? {
          wild := !m.Failed?;
          return;
        }
        grown := true;
      }
    }

    /** A round in the loop of `malloc`. */
    method TakeOnce(n: nat, room: bool, ghost was: nat, ghost start: int, ghost x: Contents, ghost grown: bool) returns (r: int)
      requires Valid() && freep != NULL && n >= 1 && was < KERNBASE && Going(n, room, was, start, x, sz, freep, Now(), grown)
      modifies this`mem, this`freep, this`f, this`live
      ensures Valid() && freep != NULL
      ensures r != NULL ==> Allocates(n, room, was, start, x, sz, freep, Now(), r)
      ensures r == NULL ==> !grown && Now() == x && sz == was && !SomeFit(f, n)
    {
      ghost var y, from := Now(), freep;
      var q := Round(n);
      if q == NULL {
        NotTwice(n, room, was, start, x, sz, from, y, grown);
        return NULL;
      }
      Ends(n, room, was, start, x, sz, from, y, grown, freep, Now(), q);
      r := q + 1;
    }

    /** The call of `morecore` in `malloc`. */
    method GrowOnce(n: nat, room: bool, ghost start: int) returns (m: Growth)
      requires Valid() && freep != NULL && 1 <= n <= UINT / HEADER_BYTES && !SomeFit(f, n)
      modifies this`mem, this`freep, this`f, this`live, this`obtained, this`brk, this`sz, this`mapped
      ensures m.More? ==> Valid() && freep != NULL && Going(n, room, old(sz), start, old(Now()), sz, freep, Now(), true)
      ensures m.Failed? ==> Valid() && freep != NULL && Allocates(n, room, old(sz), start, old(Now()), sz, freep, Now(), NULL)
      ensures m.Wild? || m.Gone? <==> !CountFits(Asked(n))
      ensures m.Wild? || m.Gone? ==> Ruins(n, room, old(sz), sz, mapped, Valid(), m.Gone?)
    {
      m := Morecore(n, room);
      if m.Failed? {
        FailsHere(n, room, old(sz), start, Now(), sz, freep);
      }
    }
  }

  /** The free list, the allocated blocks and what sbrk has given. */
  datatype Contents = Contents(f: seq<Block>, live: map<int, nat>, obtained: seq<Block>)

  /**
   What malloc does with a request of n units, where it keeps the heap sound: it takes them from the end of the first
   block that fits, going round from freep. If none fits it gets 4096 units or more from sbrk, and the n units are the last
   of these; if sbrk refuses, it returns NULL.
   */
  ghost predicate Allocates(n: nat, room: bool, sz: nat, freep: int, x: Contents, sz': nat, freep': int, y: Contents, r: int)
    requires n >= 1 && sz < KERNBASE
  {
    var core := Block(sz / HEADER_BYTES, if n < 4096 then 4096 else n);
    if SomeFit(x.f, n) then
      && r != NULL && sz' == sz && y.obtained == x.obtained && TakenFrom(x.f, y.f, n, r - 1, freep', freep)
      && r - 1 !in x.live && y.live == x.live[r - 1 := n]
    else if sz + core.size * HEADER_BYTES >= KERNBASE || !room then
      r == NULL && sz' == sz && y == x
    else
      && r - 1 + n == core.addr + core.size && sz' == sz + core.size * HEADER_BYTES && y.obtained == x.obtained + [core]
      && r - 1 !in x.live && y.live == x.live[r - 1 := n]
  }

  /** How morecore for nu units ends, if their byte count is a positive int. */
  ghost predicate Grows(nu: nat, room: bool, sz: nat, x: Contents, sz': nat, y: Contents, r: Growth) {
    var core := Block(sz / HEADER_BYTES, if nu < 4096 then 4096 else nu);
    if sz + core.size * HEADER_BYTES >= KERNBASE || !room then r.Failed? && y == x && sz' == sz
    else
      && r.More? && sz' == sz + core.size * HEADER_BYTES && y.live == x.live && y.obtained == x.obtained + [core]
      && SomeFit(y.f, nu) && (!SomeFit(x.f, nu) ==> OnlyTop(y.f, nu, core.addr + core.size))
  }

  /** Where the search starts: the first call sets freep to the head. */
  function Start(freep: int, base: int): (p: int) {
    if freep == NULL then base else freep
  }

  /** What the loop of malloc keeps: nothing has changed, or nothing fitted and the heap has grown. */
  ghost predicate Going(n: nat, room: bool, sz: nat, start: int, x: Contents, sz': nat, freep: int, y: Contents, grown: bool) {
    if grown then !SomeFit(x.f, n) && CountFits(Asked(n)) && Grows(n, room, sz, x, sz', y, More)
    else y == x && sz' == sz && freep == start
  }

  lemma Ends(n: nat, room: bool, sz: nat, start: int, x: Contents, sz': nat, from: int, y: Contents, grown: bool,
             freep: int, z: Contents, q: int)
    requires n >= 1 && sz < KERNBASE && Going(n, room, sz, start, x, sz', from, y, grown) && SomeFit(y.f, n) && q > 0
    requires TakenFrom(y.f, z.f, n, q, freep, from) && q !in y.live && z.live == y.live[q := n] && z.obtained == y.obtained
    ensures Allocates(n, room, sz, start, x, sz', freep, z, q + 1)
  {
  }

  lemma NotTwice(n: nat, room: bool, sz: nat, start: int, x: Contents, sz': nat, from: int, y: Contents, grown: bool)
    requires Going(n, room, sz, start, x, sz', from, y, grown) && !SomeFit(y.f, n)
    ensures !grown && y == x && sz' == sz
  {
  }

  lemma FailsHere(n: nat, room: bool, sz: nat, start: int, x: Contents, sz': nat, freep: int)
    requires n >= 1 && sz < KERNBASE && !SomeFit(x.f, n) && Grows(n, room, sz, x, sz', x, Failed)
    ensures Allocates(n, room, sz, start, x, sz', freep, x, NULL)
  {
  }

  /**
   What becomes of the process if the byte count is no positive int: it has no page left, or the memory that malloc goes on
   with reaches past its end.
   */
  ghost predicate Ruins(n: nat, room: bool, sz: nat, sz': nat, mapped: nat, ok: bool, none: bool)
    requires sz < KERNBASE
  {
    var b := Sbrk(sz, SbrkArg(Asked(n)), room);
    match b
    case Refused => false
    case Emptied => sz' == sz && mapped == 0 && !ok && none
    case Moved(to) => sz' == to && (sz / HEADER_BYTES + Asked(n)) * HEADER_BYTES > sz'
  }

  datatype Growth = Failed | Gone | Wild | More

  /** The block has gone into the list, behind the one at freep. */
  ghost predicate Inserted(f: seq<Block>, b: Block, g: seq<Block>, freep: int) {
    exists i: nat :: Fits(f, i, b) && g == InsertAt(f, i, b) && freep == f[i].addr
  }

  /** Going round from the block behind the one at `from`, block i is the first with n units. */
  ghost predicate FirstFit(f: seq<Block>, from: int, i: nat, n: nat) {
    exists s: nat, v: nat ::
      && s < |f| && f[s].addr == from && v < |f| && i == Turn(f, s, v) && n <= f[i].size
      && forall j: nat | j < v :: f[Turn(f, s, j)].size < n
  }

  /** The first block of f that fits gave n units at address q from its end, and the list now starts before it. */
  ghost predicate TakenFrom(f: seq<Block>, g: seq<Block>, n: nat, q: int, freep: int, from: int) {
    exists i: nat ::
      && 1 <= i < |f| && 1 <= n <= f[i].size && FirstFit(f, from, i, n) && g == TakeAt(f, i, n)
      && q == Taken(f, i, n).addr && freep == f[i - 1].addr
  }

  /** The index of the block seen after j others, starting behind block s and going round. */
  ghost function Turn(f: seq<Block>, s: nat, j: nat): (i: nat)
    requires s < |f| && j < |f|
    ensures i < |f|
  {
    if s + 1 + j < |f| then s + 1 + j else s + 1 + j - |f|
  }

  /** The search that started behind block s has seen v blocks, all too small, and is at p, which follows prevp. */
  ghost predicate Searching(f: seq<Block>, s: nat, v: nat, freep: int, prevp: int, p: int, n: nat) {
    && s < |f| && f[s].addr == freep && v < |f| && p == f[Turn(f, s, v)].addr
    && prevp == f[if v == 0 then s else Turn(f, s, v - 1)].addr
    && forall j: nat | j < v :: f[Turn(f, s, j)].size < n
  }

  lemma SearchStarts(base: int, mem: map<int, Header>, f: seq<Block>, live: map<int, nat>, obtained: seq<Block>,
                     brk: int, freep: int, n: nat) returns (s: nat)
    requires HeapOk(base, mem, f, live, obtained, brk) && OnList(f, freep)
    ensures freep in mem && Searching(f, s, 0, freep, freep, mem[freep].ptr, n)
  {
    s :| s < |f| && f[s].addr == freep;
    assert NodeOk(mem, f, s);
  }

  /**
   What the search meets at p: a block to take, never the head; or, back at its start, the knowledge that no block
   fits; or a block to pass.
   */
  lemma SearchMeets(base: int, mem: map<int, Header>, f: seq<Block>, live: map<int, nat>, obtained: seq<Block>,
                    brk: int, s: nat, v: nat, freep: int, prevp: int, p: int, n: nat)
    requires HeapOk(base, mem, f, live, obtained, brk) && Searching(f, s, v, freep, prevp, p, n) && n >= 1
    ensures p in mem
    ensures mem[p].size >= n ==> var i := Turn(f, s, v);
                                 && i >= 1 && f[i - 1].addr == prevp && f[i].addr == p && n <= f[i].size && SomeFit(f, n)
    ensures mem[p].size < n && p == freep ==> !SomeFit(f, n)
    ensures mem[p].size < n && p != freep ==> v + 1 < |f| && Searching(f, s, v + 1, freep, p, mem[p].ptr, n)
  {
    var i := Turn(f, s, v);
    assert NodeOk(mem, f, i);
    assert i == s <==> p == freep;
    if mem[p].size < n && i == s {
      AllTurns(f, s, v, n);
    }
  }

  /** A full round sees every block. */
  lemma AllTurns(f: seq<Block>, s: nat, v: nat, n: nat)
    requires s < |f| && v == |f| - 1 && f[s].size < n
    requires forall j: nat | j < v :: f[Turn(f, s, j)].size < n
    ensures !SomeFit(f, n)
  {
    forall i | 0 <= i < |f|
      ensures f[i].size < n
    {
      if i != s {
        var j := if i > s then i - s - 1 else i + |f| - s - 1;
        assert Turn(f, s, j) == i;
      }
    }
  }

  /** A block has nu units only if it ends at the top. */
  ghost predicate OnlyTop(f: seq<Block>, nu: nat, top: int) {
    forall i | 0 <= i < |f| && f[i].size >= nu :: f[i].addr + f[i].size == top
  }

  lemma BelowCore(base: int, mem: map<int, Header>, f: seq<Block>, live: map<int, nat>, obtained: seq<Block>, brk: int,
                  hp: int)
    requires HeapOk(base, mem, f, live, obtained, brk) && brk <= hp
    ensures Ordered(f) && forall i | 0 <= i < |f| :: f[i].addr + f[i].size <= hp
  {
    forall i | 0 <= i < |f|
      ensures f[i].addr + f[i].size <= hp
    {
      if i > 0 {
        assert In(f[i].addr + f[i].size - 1, f[i]);
        assert Covered(f, f[i].addr + f[i].size - 1);
      }
    }
  }

  /** Freed above all others, a block leaves a block of as many units; where none fitted before, that one alone fits. */
  lemma CoreFits(f: seq<Block>, b: Block, r: seq<Block>, freep: int, nu: nat)
    requires Ordered(f) && Inserted(f, b, r, freep) && 1 <= nu <= b.size
    requires forall i | 0 <= i < |f| :: f[i].addr + f[i].size <= b.addr
    ensures SomeFit(r, nu) && (!SomeFit(f, nu) ==> OnlyTop(r, nu, b.addr + b.size))
  {
    var i: nat :| Fits(f, i, b) && r == InsertAt(f, i, b);
    assert i + 1 == |f|;
    assert LinkAt(f, i, b) == f + [b];
    MergedLast(f, b, r);
  }

  lemma MergedLast(f: seq<Block>, b: Block, r: seq<Block>)
    requires f != [] && f[|f| - 1].size >= 0 && r == MergeAt(f + [b], |f| - 1)
    ensures r != [] && (forall k | 0 <= k < |r| - 1 :: k < |f| && r[k] == f[k])
    ensures var last := r[|r| - 1]; last.addr + last.size == b.addr + b.size && last.size >= b.size
  {
  }
}
