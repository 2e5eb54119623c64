/**
 The physical page allocator, kalloc.c: a list of free pages, linked through the first word of each. A page is 1024
 words, and its number is its physical address divided by the page size.
 */
module Kalloc {
  import opened Common

  const PGSIZE := 4096
  const WORDS := 1024

  type Page = seq<nat>

  /** The kernel's pointer to a page. */
  function Ptr(p: nat): nat {
    KERNBASE + p * PGSIZE
  }

  function PageOf(v: nat): nat
    requires v >= KERNBASE
  {
    (v - KERNBASE) / PGSIZE
  }

  lemma PtrPage(p: nat)
    ensures PageOf(Ptr(p)) == p
  {
  }

  function ZeroPage(): (z: Page)
    ensures |z| == WORDS && forall j | 0 <= j < WORDS :: z[j] == 0
  {
    seq(WORDS, j => 0)
  }

  /** What kfree leaves in a page: the link to the next free page and bytes of 1. */
  function JunkPage(next: nat): (z: Page)
    ensures |z| == WORDS && z[0] == next
  {
    [next] + seq(WORDS - 1, j => 0x0101_0101)
  }

  function Put(z: Page, i: nat, w: nat): (y: Page)
    requires i < |z|
    ensures |y| == |z| && forall j | 0 <= j < |z| :: y[j] == if j == i then w else z[j]
  {
    z[i := w]
  }

  /** From head the links lead through the pages of free, in that order, to 0. */
  ghost predicate Linked(mem: seq<Page>, head: nat, free: seq<nat>)
    decreases |free|
  {
    if free == [] then head == 0
    else head == Ptr(free[0]) && free[0] < |mem| && |mem[free[0]]| == WORDS && Linked(mem, mem[free[0]][0], free[1..])
  }

  lemma {:induction false} LinkedElsewhere(mem: seq<Page>, to: seq<Page>, head: nat, free: seq<nat>)
    requires Linked(mem, head, free) && |to| == |mem| && forall p | p in free && p < |mem| :: to[p] == mem[p]
    ensures Linked(to, head, free)
    decreases |free|
  {
    if free != [] {
      assert free[0] in free && forall p | p in free[1..] :: p in free;
      LinkedElsewhere(mem, to, mem[free[0]][0], free[1..]);
    }
  }

  /** Physical memory up to page hi, of which the pages from lo on are for kalloc: `end` to PHYSTOP. */
  class PhysMem {
    const lo: nat
    const hi: nat
    var mem: seq<Page>
    /** kmem.freelist. */
    var head: nat
    /** The free pages, the next to go first. */
    ghost var free: seq<nat>

    ghost predicate Valid()
      reads this
    {
      && |mem| == hi && (forall p | 0 <= p < hi :: |mem[p]| == WORDS)
      && Linked(mem, head, free) && Distinct(free) && (forall p | p in free :: lo <= p < hi)
    }

    constructor (lo: nat, hi: nat, mem: seq<Page>)
      requires |mem| == hi && forall p | 0 <= p < hi :: |mem[p]| == WORDS
      ensures Valid() && this.lo == lo && this.hi == hi && this.mem == mem && free == []
    {
      this.lo, this.hi, this.mem, head, free := lo, hi, mem, 0, [];
    }

    /** `kalloc`: it fails exactly when no page is free. */
    method Alloc() returns (r: Option)
      requires Valid()
      modifies this`head, this`free
      ensures Valid()
      ensures r.None? <==> old(free) == []
      ensures r.None? ==> free == old(free)
      ensures r.Some? ==> old(free) == [r.value] + free && lo <= r.value < hi && r.value !in free
    {
      var p := head;
      if p == 0 {
        return None;
      }
      PtrPage(free[0]);
      assert free[0] in free && forall q | q in free[1..] :: q in free;
      head := mem[PageOf(p)][0];
      free := free[1..];
      return Some(PageOf(p));
    }

    /** `kfree`: it panics on a page outside the allocator's range. A page that is free already it would not notice. */
    method Free(p: nat) returns (ok: bool)
      requires Valid() && p !in free
      modifies this`head, this`free, this`mem
      ensures Valid() && (ok <==> lo <= p < hi)
      ensures !ok ==> free == old(free) && mem == old(mem)
      ensures ok ==> free == [p] + old(free) && mem == old(mem)[p := JunkPage(old(head))]
      ensures ok ==> mem[p][0] == old(head) && forall j | 1 <= j < WORDS :: mem[p][j] == 0x0101_0101
    {
      if p < lo || p >= hi {
        return false;
      }
      ghost var before := mem;
      mem := mem[p := JunkPage(head)];
      LinkedElsewhere(before, mem, head, free);
      head := Ptr(p);
      free := [p] + free;
      assert free[1..] == old(free);
      return true;
    }

    /** Write a page that is in use. */
    method Fill(p: nat, z: Page)
      requires Valid() && p < hi && p !in free && |z| == WORDS
      modifies this`mem
      ensures Valid() && mem == old(mem)[p := z]
    {
      LinkedElsewhere(mem, mem[p := z], head, free);
      mem := mem[p := z];
    }

    /** Write one word of a page that is in use. */
    method Poke(p: nat, i: nat, w: nat)
      requires Valid() && p < hi && p !in free && i < WORDS
      modifies this`mem
      ensures Valid() && mem == old(mem)[p := Put(old(mem)[p], i, w)]
    {
      Fill(p, Put(mem[p], i, w));
    }

    /** `freerange`, over the whole pages of a stretch that is in no use: the last goes to the front of the list. */
    method Freerange(first: nat, end: nat) returns (ok: bool)
      requires Valid() && first <= end && forall p | first <= p < end :: p !in free
      modifies this`head, this`free, this`mem
      ensures Valid() && (ok <==> first == end || (lo <= first && end <= hi))
      ensures ok ==> free == Downward(first, end) + old(free)
    {
      var p := first;
      ghost var before := free;
      assert Downward(first, p) + before == free;
      while p < end
        invariant first <= p <= end && Valid() && free == Downward(first, p) + before
        invariant p > first ==> lo <= first && p <= hi
      {
        DownwardNext(first, p, before);
        var done := Free(p);
        if !done {
          return false;
        }
        p := p + 1;
      }
      return true;
    }
  }

  ghost function Downward(first: nat, end: nat): (s: seq<nat>)
    requires first <= end
    ensures forall p :: p in s <==> first <= p < end
    decreases end
  {
    if first == end then [] else [end - 1] + Downward(first, end - 1)
  }

  lemma DownwardNext(first: nat, p: nat, before: seq<nat>)
    requires first <= p && p !in before
    ensures p !in Downward(first, p) + before && [p] + (Downward(first, p) + before) == Downward(first, p + 1) + before
  {
  }
}
