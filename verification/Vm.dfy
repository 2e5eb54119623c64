/**
 Page tables of vm.c over the page allocator of kalloc.c.

 Addresses are counted in pages. A virtual page v has its entry at index v % 1024 of the table that entry v / 1024 of the
 page directory points to, and the pages below USER are the user half.

 `owner` gives the one position that each page in use has: a page directory, a page table in an entry of a directory, or
 a frame mapped at a user page. The kernel half maps all of physical memory in every address space, and owns nothing.

 What an address space means is its `View`: the frame, flags and, for user pages, contents that each virtual page stands
 for. Steps that change no view are told apart from those that change one: a new page table, for instance, changes none.
 Everything vm.c does to a page table is one of five steps on plain values, each shown to keep `Ok`; the class `Spaces`
 has the code.

 Memory that runs out is counted exactly. Free pages and page tables together are a budget that mapping pages keeps, up
 to the frames; so each operation fails exactly when fewer pages are free than its frames and the page tables that are
 missing.
 */
module Vm {
  import opened Common
  import opened Kalloc

  /** The first page of the kernel half, and the number of virtual pages. */
  const USER := 0x80000
  const ALL := 0x10_0000

  datatype Pos = Dir | Table(d: nat, i: nat) | Frame(d: nat, v: nat)

  /** Memory up to page hi, the live page directories, and the owner of each page in use from lo on. */
  datatype State = State(lo: nat, hi: nat, mem: seq<Page>, dirs: set<nat>, owner: map<nat, Pos>)

  // Entries: a page number and twelve bits of flags, of which the lowest is PTE_P.

  predicate Present(w: nat) {
    w % 2 == 1
  }

  function Addr(w: nat): nat {
    w / PGSIZE
  }

  function Flags(w: nat): nat {
    w % PGSIZE
  }

  function Entry(p: nat, flags: nat): (w: nat)
    requires flags < PGSIZE
    ensures Addr(w) == p && Flags(w) == flags && (Present(w) <==> flags % 2 == 1)
  {
    p * PGSIZE + flags
  }

  /** flags | PTE_P. */
  function WithP(flags: nat): (f: nat)
    requires flags < PGSIZE
    ensures f < PGSIZE && f % 2 == 1 && (flags % 2 == 1 ==> f == flags)
  {
    if flags % 2 == 1 then flags else flags + 1
  }

  ghost predicate Sized(x: State) {
    && |x.mem| == x.hi && (forall p | 0 <= p < x.hi :: |x.mem[p]| == WORDS)
    && (forall d | d in x.dirs :: x.lo <= d < x.hi)
  }

  ghost function Pde(x: State, d: nat, i: nat): nat
    requires Sized(x) && d in x.dirs && i < WORDS
  {
    x.mem[d][i]
  }

  ghost function Pte(x: State, d: nat, v: nat): nat
    requires Sized(x) && d in x.dirs && v < ALL
  {
    var w := Pde(x, d, v / WORDS);
    if Present(w) && Addr(w) < x.hi then x.mem[Addr(w)][v % WORDS] else 0
  }

  ghost predicate TableOk(x: State, d: nat, i: nat)
    requires Sized(x) && d in x.dirs && i < WORDS
  {
    var w := Pde(x, d, i);
    Present(w) ==> Addr(w) in x.owner && x.owner[Addr(w)] == Table(d, i) && Flags(w) == 7
  }

  ghost predicate FrameOk(x: State, d: nat, v: nat)
    requires Sized(x) && d in x.dirs && v < USER
  {
    var w := Pte(x, d, v);
    Present(w) ==> Addr(w) in x.owner && x.owner[Addr(w)] == Frame(d, v)
  }

  ghost predicate PosOk(x: State, b: nat)
    requires Sized(x) && b in x.owner
  {
    && x.lo <= b < x.hi
    && match x.owner[b]
       case Dir => b in x.dirs
       case Table(d, i) => d in x.dirs && i < WORDS && Present(Pde(x, d, i)) && Addr(Pde(x, d, i)) == b
       case Frame(d, v) => d in x.dirs && v < USER && Present(Pte(x, d, v)) && Addr(Pte(x, d, v)) == b
  }

  /** Every directory, every page table and every user frame is owned by the one position that points to it. */
  ghost predicate Ok(x: State) {
    && Sized(x)
    && (forall d | d in x.dirs :: d in x.owner && x.owner[d] == Dir)
    && (forall d: nat, i: nat | d in x.dirs && i < WORDS :: TableOk(x, d, i))
    && (forall d: nat, v: nat | d in x.dirs && v < USER :: FrameOk(x, d, v))
    && (forall b | b in x.owner :: PosOk(x, b))
  }

  /** What a virtual page stands for. The contents count for user pages only. */
  datatype Mapping = Absent | Mapped(frame: nat, flags: nat, page: Page)

  ghost function View(x: State, d: nat, v: nat): Mapping
    requires Sized(x) && d in x.dirs && v < ALL
  {
    var w := Pte(x, d, v);
    if !Present(w) then Absent
    else Mapped(Addr(w), Flags(w), if v < USER && Addr(w) < x.hi then x.mem[Addr(w)] else [])
  }

  /**
   The two levels of the page table, in numbers: the entry of the directory has the upper ten bits of the page number as its
   index and is present, writable and open to users or not present; the entry of the page table has the lower ten.
   */
  lemma ViewIs(x: State, d: nat, v: nat)
    requires Ok(x) && d in x.dirs && v < ALL
    ensures var w := x.mem[d][v / 1024];
            if w % 2 == 0 then View(x, d, v) == Absent
            else
              && w % 4096 == 7 && w / 4096 < x.hi
              && var e := x.mem[w / 4096][v % 1024];
              if e % 2 == 0 then View(x, d, v) == Absent
              else
                && View(x, d, v).Mapped? && View(x, d, v).frame == e / 4096 && View(x, d, v).flags == e % 4096
                && (v < 0x8_0000 ==> e / 4096 < x.hi && View(x, d, v).page == x.mem[e / 4096])
  {
    assert TableOk(x, d, v / WORDS);
    assert PosOk(x, d);
    var w := Pde(x, d, v / WORDS);
    if Present(w) {
      assert PosOk(x, Addr(w));
      if v < USER {
        assert FrameOk(x, d, v);
        if Present(Pte(x, d, v)) {
          assert PosOk(x, Addr(Pte(x, d, v)));
        }
      }
    }
  }

  /** A frame is mapped at one user page of one address space only. */
  lemma OneMapping(x: State, d: nat, v: nat, e: nat, u: nat)
    requires Ok(x) && d in x.dirs && e in x.dirs && v < USER && u < USER
    requires View(x, d, v).Mapped? && View(x, e, u).Mapped? && View(x, d, v).frame == View(x, e, u).frame
    ensures d == e && v == u
  {
    assert FrameOk(x, d, v) && FrameOk(x, e, u);
  }

  /** No page is in two directory entries, or in one and mapped to a user page, or is itself a directory. */
  lemma OneTable(x: State, d: nat, i: nat, e: nat, j: nat, v: nat)
    requires Ok(x) && d in x.dirs && e in x.dirs && i < WORDS && j < WORDS && v < USER && Present(Pde(x, d, i))
    ensures Present(Pde(x, e, j)) && Addr(Pde(x, d, i)) == Addr(Pde(x, e, j)) ==> d == e && i == j
    ensures View(x, e, v).Mapped? ==> View(x, e, v).frame != Addr(Pde(x, d, i))
    ensures Addr(Pde(x, d, i)) !in x.dirs
  {
    assert TableOk(x, d, i) && TableOk(x, e, j) && FrameOk(x, e, v);
  }

  // Writes to pages that no position owns.

  ghost predicate AgreeOnOwned(x: State, mem: seq<Page>) {
    && |mem| == x.hi && (forall p | 0 <= p < x.hi :: |mem[p]| == WORDS)
    && (forall b | b in x.owner && b < x.hi :: b < |x.mem| && mem[b] == x.mem[b])
  }

  lemma PteElsewhere(x: State, mem: seq<Page>, d: nat, v: nat)
    requires Ok(x) && AgreeOnOwned(x, mem) && d in x.dirs && v < ALL
    ensures var y := x.(mem := mem); Pte(y, d, v) == Pte(x, d, v) && View(y, d, v) == View(x, d, v)
  {
    assert TableOk(x, d, v / WORDS);
    if v < USER {
      assert FrameOk(x, d, v);
    }
  }

  lemma Elsewhere(x: State, mem: seq<Page>)
    requires Ok(x) && AgreeOnOwned(x, mem)
    ensures Ok(x.(mem := mem))
    ensures forall d: nat, v: nat | d in x.dirs && v < ALL :: View(x.(mem := mem), d, v) == View(x, d, v)
  {
    var y := x.(mem := mem);
    forall d: nat, v: nat | d in x.dirs && v < ALL
      ensures Pte(y, d, v) == Pte(x, d, v) && View(y, d, v) == View(x, d, v)
    {
      PteElsewhere(x, mem, d, v);
    }
    forall d: nat, i: nat | d in x.dirs && i < WORDS
      ensures TableOk(y, d, i)
    {
      assert TableOk(x, d, i);
    }
    forall d: nat, v: nat | d in x.dirs && v < USER
      ensures FrameOk(y, d, v)
    {
      assert FrameOk(x, d, v);
    }
    forall b | b in y.owner
      ensures PosOk(y, b)
    {
      assert PosOk(x, b);
    }
  }

  // A new directory.

  ghost function AddDir(x: State, b: nat): State {
    x.(dirs := x.dirs + {b}, owner := x.owner[b := Dir])
  }

  lemma AddDirPte(x: State, b: nat, d: nat, v: nat)
    requires Ok(x) && b !in x.owner && x.lo <= b < x.hi && x.mem[b] == ZeroPage() && d in AddDir(x, b).dirs && v < ALL
    ensures var y := AddDir(x, b);
            && Sized(y)
            && (if d == b then !Present(Pte(y, d, v)) && View(y, d, v) == Absent
                else d in x.dirs && Pte(y, d, v) == Pte(x, d, v) && View(y, d, v) == View(x, d, v))
  {
  }

  lemma AddDirKeeps(x: State, b: nat)
    requires Ok(x) && b !in x.owner && x.lo <= b < x.hi && x.mem[b] == ZeroPage()
    ensures Ok(AddDir(x, b))
    ensures forall d: nat, v: nat | d in x.dirs && v < ALL :: View(AddDir(x, b), d, v) == View(x, d, v)
    ensures forall v: nat | v < ALL :: View(AddDir(x, b), b, v) == Absent
  {
    var y := AddDir(x, b);
    forall d: nat, i: nat | d in y.dirs && i < WORDS
      ensures TableOk(y, d, i)
    {
      assert d != b ==> TableOk(x, d, i);
    }
    forall d: nat, v: nat | d in y.dirs && v < ALL
      ensures if d == b then View(y, d, v) == Absent else View(y, d, v) == View(x, d, v)
    {
      AddDirPte(x, b, d, v);
    }
    forall d: nat, v: nat | d in y.dirs && v < USER
      ensures FrameOk(y, d, v)
    {
      AddDirPte(x, b, d, v);
      assert d != b ==> FrameOk(x, d, v);
    }
    forall c | c in y.owner
      ensures PosOk(y, c)
    {
      assert c != b ==> PosOk(x, c);
    }
  }

  // A new page table.

  ghost predicate CanAddTable(x: State, d: nat, i: nat, b: nat) {
    && Ok(x) && d in x.dirs && i < WORDS && !Present(Pde(x, d, i))
    && b !in x.owner && x.lo <= b < x.hi && x.mem[b] == ZeroPage()
  }

  /** The entry of the directory gets the table with flags P, W and U. */
  ghost function AddTable(x: State, d: nat, i: nat, b: nat): State
    requires CanAddTable(x, d, i, b)
  {
    x.(mem := x.mem[d := Put(x.mem[d], i, Entry(b, 7))], owner := x.owner[b := Table(d, i)])
  }

  lemma AddTablePte(x: State, d: nat, i: nat, b: nat, e: nat, v: nat)
    requires CanAddTable(x, d, i, b) && e in x.dirs && v < ALL
    ensures var y := AddTable(x, d, i, b);
            && Sized(y) && (Present(Pte(y, e, v)) <==> Present(Pte(x, e, v)))
            && (Present(Pte(x, e, v)) ==> Pte(y, e, v) == Pte(x, e, v)) && View(y, e, v) == View(x, e, v)
  {
    assert TableOk(x, e, v / WORDS);
    if v < USER {
      assert FrameOk(x, e, v);
    }
  }

  lemma AddTableTables(x: State, d: nat, i: nat, b: nat)
    requires CanAddTable(x, d, i, b)
    ensures Tables(AddTable(x, d, i, b), d) == Tables(x, d) + {i}
  {
    var y := AddTable(x, d, i, b);
    assert forall k: nat | k < WORDS && k != i :: Pde(y, d, k) == Pde(x, d, k);
  }

  lemma AddTableKeeps(x: State, d: nat, i: nat, b: nat)
    requires CanAddTable(x, d, i, b)
    ensures Ok(AddTable(x, d, i, b))
    ensures forall e: nat, v: nat | e in x.dirs && v < ALL :: View(AddTable(x, d, i, b), e, v) == View(x, e, v)
  {
    var y := AddTable(x, d, i, b);
    forall e: nat, v: nat | e in x.dirs && v < ALL
      ensures (Present(Pte(y, e, v)) <==> Present(Pte(x, e, v))) && (Present(Pte(x, e, v)) ==> Pte(y, e, v) == Pte(x, e, v))
      ensures View(y, e, v) == View(x, e, v)
    {
      AddTablePte(x, d, i, b, e, v);
    }
    forall e: nat, k: nat | e in y.dirs && k < WORDS
      ensures TableOk(y, e, k)
    {
      assert TableOk(x, e, k);
    }
    forall e: nat, v: nat | e in y.dirs && v < USER
      ensures FrameOk(y, e, v)
    {
      assert FrameOk(x, e, v);
    }
    forall c | c in y.owner
      ensures PosOk(y, c)
    {
      assert c != b ==> PosOk(x, c);
    }
  }

  // A new value for an entry of a page table.

  ghost predicate HasTable(x: State, d: nat, v: nat) {
    Ok(x) && d in x.dirs && v < ALL && Present(Pde(x, d, v / WORDS))
  }

  ghost function SetEntry(x: State, d: nat, v: nat, w: nat, owner: map<nat, Pos>): (y: State)
    requires HasTable(x, d, v)
    ensures Sized(y) && y.dirs == x.dirs && y.owner == owner
  {
    assert TableOk(x, d, v / WORDS);
    var t := Addr(Pde(x, d, v / WORDS));
    assert PosOk(x, t);
    x.(mem := x.mem[t := Put(x.mem[t], v % WORDS, w)], owner := owner)
  }

  lemma SetEntryPte(x: State, d: nat, v: nat, w: nat, owner: map<nat, Pos>, e: nat, u: nat)
    requires HasTable(x, d, v) && e in x.dirs && u < ALL
    ensures var y := SetEntry(x, d, v, w, owner); Pte(y, e, u) == if (e, u) == (d, v) then w else Pte(x, e, u)
    ensures var y := SetEntry(x, d, v, w, owner); (e, u) != (d, v) ==> View(y, e, u) == View(x, e, u)
  {
    assert TableOk(x, d, v / WORDS) && TableOk(x, e, u / WORDS);
    assert PosOk(x, Addr(Pde(x, d, v / WORDS)));
    if u < USER {
      assert FrameOk(x, e, u);
    }
    assert v / WORDS == u / WORDS && v % WORDS == u % WORDS ==> v == u;
  }

  /** Directories and tables do not change. */
  lemma SetEntryTables(x: State, d: nat, v: nat, w: nat, owner: map<nat, Pos>, e: nat, i: nat)
    requires HasTable(x, d, v) && e in x.dirs && i < WORDS
    ensures var y := SetEntry(x, d, v, w, owner); Pde(y, e, i) == Pde(x, e, i)
  {
    assert TableOk(x, d, v / WORDS);
    assert PosOk(x, Addr(Pde(x, d, v / WORDS)));
  }

  lemma SetEntrySameTables(x: State, d: nat, v: nat, w: nat, owner: map<nat, Pos>)
    requires HasTable(x, d, v)
    ensures Tables(SetEntry(x, d, v, w, owner), d) == Tables(x, d)
  {
    forall i: nat | i < WORDS
      ensures Pde(SetEntry(x, d, v, w, owner), d, i) == Pde(x, d, i)
    {
      SetEntryTables(x, d, v, w, owner, d, i);
    }
  }

  /** The owners fit a new entry: a user frame gains or loses its owner with the entry. */
  ghost predicate OwnersFit(x: State, d: nat, v: nat, w: nat, owner: map<nat, Pos>)
    requires HasTable(x, d, v)
  {
    if v >= USER then owner == x.owner
    else if Present(w)
    then !Present(Pte(x, d, v)) && Addr(w) !in x.owner && x.lo <= Addr(w) < x.hi && owner == x.owner[Addr(w) := Frame(d, v)]
    else Present(Pte(x, d, v)) && owner == x.owner - {Addr(Pte(x, d, v))}
  }

  lemma SetEntryKeeps(x: State, d: nat, v: nat, w: nat, owner: map<nat, Pos>)
    requires HasTable(x, d, v) && OwnersFit(x, d, v, w, owner)
    ensures Ok(SetEntry(x, d, v, w, owner))
  {
    var y := SetEntry(x, d, v, w, owner);
    forall e: nat, i: nat | e in x.dirs && i < WORDS
      ensures Pde(y, e, i) == Pde(x, e, i)
    {
      SetEntryTables(x, d, v, w, owner, e, i);
    }
    if v < USER {
      assert FrameOk(x, d, v);
    }
    forall e: nat, i: nat | e in y.dirs && i < WORDS
      ensures TableOk(y, e, i)
    {
      assert TableOk(x, e, i);
    }
    forall e: nat, u: nat | e in y.dirs && u < USER
      ensures FrameOk(y, e, u)
    {
      SetEntryPte(x, d, v, w, owner, e, u);
      assert FrameOk(x, e, u);
    }
    forall c | c in y.owner
      ensures PosOk(y, c)
    {
      SetEntryPos(x, d, v, w, owner, c);
    }
  }

  lemma SetEntryPos(x: State, d: nat, v: nat, w: nat, owner: map<nat, Pos>, c: nat)
    requires HasTable(x, d, v) && OwnersFit(x, d, v, w, owner) && c in owner
    ensures PosOk(SetEntry(x, d, v, w, owner), c)
  {
    if c in x.owner {
      assert PosOk(x, c);
      match x.owner[c]
      case Dir =>
      case Table(e, i) =>
        SetEntryTables(x, d, v, w, owner, e, i);
      case Frame(e, u) =>
        SetEntryPte(x, d, v, w, owner, e, u);
    } else {
      SetEntryPte(x, d, v, w, owner, d, v);
    }
  }

  // Whole address spaces.

  /** The directory of the address space that a page belongs to. */
  ghost function Of(b: nat, pos: Pos): nat {
    if pos.Dir? then b else pos.d
  }

  /** The owners outside the address space of d. */
  ghost function Outside(owner: map<nat, Pos>, d: nat): map<nat, Pos> {
    map b | b in owner && Of(b, owner[b]) != d :: owner[b]
  }

  /** The pages of the address space of d have lost their owner. */
  ghost function Drop(x: State, d: nat): State {
    x.(dirs := x.dirs - {d}, owner := Outside(x.owner, d))
  }

  lemma DropPte(x: State, d: nat, e: nat, v: nat)
    requires Ok(x) && d in x.dirs && e in x.dirs && e != d && v < ALL
    ensures Sized(Drop(x, d)) && Pte(Drop(x, d), e, v) == Pte(x, e, v) && View(Drop(x, d), e, v) == View(x, e, v)
  {
  }

  lemma DropKeeps(x: State, d: nat)
    requires Ok(x) && d in x.dirs
    ensures Ok(Drop(x, d))
    ensures forall e: nat, v: nat | e in x.dirs && e != d && v < ALL :: View(Drop(x, d), e, v) == View(x, e, v)
  {
    var y := Drop(x, d);
    forall e: nat, i: nat | e in y.dirs && i < WORDS
      ensures TableOk(y, e, i)
    {
      assert TableOk(x, e, i);
    }
    forall e: nat, v: nat | e in y.dirs && v < ALL
      ensures Pte(y, e, v) == Pte(x, e, v) && View(y, e, v) == View(x, e, v)
    {
      DropPte(x, d, e, v);
    }
    forall e: nat, v: nat | e in y.dirs && v < USER
      ensures FrameOk(y, e, v)
    {
      assert FrameOk(x, e, v);
    }
    forall b | b in y.owner
      ensures PosOk(y, b)
    {
      assert PosOk(x, b);
    }
  }

  /** A directory that is not there owns nothing. */
  lemma OutsideAll(x: State, d: nat)
    requires Ok(x) && d !in x.dirs
    ensures Outside(x.owner, d) == x.owner
  {
    forall b | b in x.owner
      ensures Of(b, x.owner[b]) != d
    {
      assert PosOk(x, b);
    }
  }

  lemma OutsideAdd(owner: map<nat, Pos>, d: nat, b: nat, pos: Pos)
    requires b !in owner && Of(b, pos) == d
    ensures Outside(owner[b := pos], d) == Outside(owner, d)
  {
  }

  lemma OutsideRemove(owner: map<nat, Pos>, d: nat, b: nat)
    requires b in owner && Of(b, owner[b]) == d
    ensures Outside(owner - {b}, d) == Outside(owner, d)
  {
  }

  // Relations between states.

  ghost predicate SameViews(x: State, y: State) {
    && Sized(x) && Sized(y) && y.dirs == x.dirs
    && (forall e: nat, u: nat | e in x.dirs && u < ALL :: View(y, e, u) == View(x, e, u))
  }

  /** Only what d has at v changes, to m. */
  ghost predicate OneView(x: State, y: State, d: nat, v: nat, m: Mapping) {
    && Sized(x) && Sized(y) && y.dirs == x.dirs && d in x.dirs && v < ALL && View(y, d, v) == m
    && (forall e: nat, u: nat | e in x.dirs && u < ALL && (e, u) != (d, v) :: View(y, e, u) == View(x, e, u))
  }

  /** Each page of the allocator is on the free list, owned, or in hand, and only one of these. */
  ghost predicate Parted(lo: nat, hi: nat, free: seq<nat>, owner: map<nat, Pos>, held: set<nat>) {
    && (forall p: nat | lo <= p < hi :: p in free || p in owner || p in held)
    && (forall p: nat | p in owner || p in held :: p !in free && lo <= p < hi)
    && (forall p: nat | p in owner :: p !in held)
  }

  /** t is the page table for v, a page with an owner. */
  ghost predicate TableAt(x: State, d: nat, v: nat, t: nat) {
    HasTable(x, d, v) && t == Addr(Pde(x, d, v / WORDS)) && t < x.hi && t in x.owner && x.owner[t] == Table(d, v / WORDS)
  }

  lemma TableFacts(x: State, d: nat, v: nat)
    requires HasTable(x, d, v)
    ensures TableAt(x, d, v, Addr(Pde(x, d, v / WORDS)))
  {
    assert TableOk(x, d, v / WORDS);
    assert PosOk(x, Addr(Pde(x, d, v / WORDS)));
  }

  ghost function MappedTo(x: State, v: nat, p: nat, flags: nat): Mapping
    requires Sized(x)
  {
    Mapped(p, flags, if v < USER && p < x.hi then x.mem[p] else [])
  }

  lemma SetEntryView(x: State, d: nat, v: nat, w: nat, owner: map<nat, Pos>)
    requires HasTable(x, d, v) && OwnersFit(x, d, v, w, owner)
    ensures OneView(x, SetEntry(x, d, v, w, owner), d, v,
                    if Present(w) then MappedTo(x, v, Addr(w), Flags(w)) else Absent)
  {
    var y := SetEntry(x, d, v, w, owner);
    TableFacts(x, d, v);
    SetEntryPte(x, d, v, w, owner, d, v);
    forall e: nat, u: nat | e in x.dirs && u < ALL && (e, u) != (d, v)
      ensures View(y, e, u) == View(x, e, u)
    {
      SetEntryPte(x, d, v, w, owner, e, u);
    }
  }

  /** The frame at v freed, and then its entry cleared. */
  lemma UnmapKeeps(x: State, d: nat, v: nat, t: nat, f: nat, junk: Page)
    requires TableAt(x, d, v, t) && v < USER && Present(Pte(x, d, v)) && f == Addr(Pte(x, d, v)) && |junk| == WORDS
    ensures f in x.owner && x.lo <= f < x.hi && f != t
    ensures var m := x.mem[f := junk];
            var y := x.(mem := m[t := Put(m[t], v % WORDS, 0)], owner := x.owner - {f});
            Ok(y) && OneView(x, y, d, v, Absent) && Outside(y.owner, d) == Outside(x.owner, d)
  {
    assert FrameOk(x, d, v) && PosOk(x, f);
    var o, m := x.owner - {f}, x.mem[f := junk];
    var z := SetEntry(x, d, v, 0, o);
    SetEntryKeeps(x, d, v, 0, o);
    SetEntryView(x, d, v, 0, o);
    OutsideRemove(x.owner, d, f);
    Elsewhere(z, m[t := Put(m[t], v % WORDS, 0)]);
  }

  /** The pages of n bytes: n rounded up. */
  function PagesFor(n: nat): nat {
    (n + PGSIZE - 1) / PGSIZE
  }

  /** In the address space of d the pages from a to b are gone; nothing else changed. */
  ghost predicate Cleared(x: State, y: State, d: nat, a: nat, b: nat) {
    && Sized(x) && Sized(y) && y.dirs == x.dirs
    && (forall e: nat, u: nat | e in x.dirs && u < ALL ::
          View(y, e, u) == if e == d && a <= u < b then Absent else View(x, e, u))
  }

  lemma ClearedNext(x: State, y: State, z: State, d: nat, a: nat, b: nat)
    requires Cleared(x, y, d, a, b) && OneView(y, z, d, b, Absent) && a <= b
    ensures Cleared(x, z, d, a, b + 1)
  {
  }

  lemma ClearedHere(x: State, y: State, d: nat, a: nat, b: nat)
    requires Cleared(x, y, d, a, b) && d in x.dirs && b < ALL && View(y, d, b) == Absent && a <= b
    ensures Cleared(x, y, d, a, b + 1)
  {
  }

  /** Without a page table there is nothing up to the end of what it would map. */
  lemma ClearedSkip(x: State, y: State, d: nat, a: nat, b: nat, end: nat)
    requires Cleared(x, y, d, a, b) && d in x.dirs && a <= b < end <= USER && !Present(Pde(y, d, b / WORDS))
    ensures var to := (b / WORDS + 1) * WORDS; to > b && Cleared(x, y, d, a, if to < end then to else end)
  {
    var to := (b / WORDS + 1) * WORDS;
    forall u: nat | b <= u < to && u < ALL
      ensures View(y, d, u) == Absent
    {
      assert u / WORDS == b / WORDS;
    }
  }

  /** Every address space but that of d is as it was. */
  ghost predicate OthersSame(x: State, y: State, d: nat) {
    && Sized(x) && Sized(y) && (forall e | e in x.dirs && e != d :: e in y.dirs)
    && (forall e: nat, u: nat | e in x.dirs && e != d && u < ALL :: View(y, e, u) == View(x, e, u))
  }

  /** The owners without the first n page tables of d. */
  ghost function WithoutTables(owner: map<nat, Pos>, d: nat, n: nat): map<nat, Pos> {
    map b | b in owner && !(owner[b].Table? && owner[b].d == d && owner[b].i < n) :: owner[b]
  }

  lemma TablesNext(x: State, d: nat, i: nat)
    requires Ok(x) && d in x.dirs && i < WORDS
    ensures d in WithoutTables(x.owner, d, i)
    ensures var w := Pde(x, d, i);
            if Present(w) then Addr(w) in WithoutTables(x.owner, d, i)
                               && WithoutTables(x.owner, d, i + 1) == WithoutTables(x.owner, d, i) - {Addr(w)}
            else WithoutTables(x.owner, d, i + 1) == WithoutTables(x.owner, d, i)
  {
    assert TableOk(x, d, i);
    forall b | b in x.owner
      ensures x.owner[b] == Table(d, i) <==> Present(Pde(x, d, i)) && b == Addr(Pde(x, d, i))
    {
      assert PosOk(x, b);
    }
  }

  /** With the user half empty, the page tables and the directory are all that d has. */
  lemma DroppedOwners(x: State, d: nat)
    requires Ok(x) && d in x.dirs && forall v: nat | v < USER :: View(x, d, v) == Absent
    ensures WithoutTables(x.owner, d, WORDS) - {d} == Outside(x.owner, d)
  {
    forall b | b in x.owner
      ensures Of(b, x.owner[b]) == d <==> b == d || (x.owner[b].Table? && x.owner[b].d == d && x.owner[b].i < WORDS)
    {
      assert PosOk(x, b);
      if x.owner[b].Frame? && x.owner[b].d == d {
        assert View(x, d, x.owner[b].v) == Absent;
      }
    }
  }

  // The kernel half.

  /** A line of the source's kmap, in pages. */
  datatype Region = Region(virt: nat, phys: nat, pages: nat, perm: nat)

  predicate InKernel(k: Region) {
    USER <= k.virt && k.pages >= 1 && k.virt + k.pages <= ALL && k.perm < PGSIZE
  }

  predicate Overlap(k: Region, l: Region) {
    k.virt < l.virt + l.pages && l.virt < k.virt + k.pages
  }

  predicate KernelMap(kmap: seq<Region>) {
    && (forall j | 0 <= j < |kmap| :: InKernel(kmap[j]))
    && (forall j, k | 0 <= j < k < |kmap| :: !Overlap(kmap[j], kmap[k]))
  }

  /** The source's kmap, where the page of the linker's `data` is a parameter. */
  function Kmap(data: nat): seq<Region>
    requires 0x8_0100 < data < 0x8_e000
  {
    [Region(0x8_0000, 0, 0x100, 2), Region(0x8_0100, 0x100, data - 0x8_0100, 0),
     Region(data, data - 0x8_0000, 0x8_e000 - data, 2), Region(0xf_e000, 0xf_e000, 0x2000, 2)]
  }

  lemma KmapIsKernelMap(data: nat)
    requires 0x8_0100 < data < 0x8_e000
    ensures KernelMap(Kmap(data))
  {
    var k := Kmap(data);
    assert InKernel(k[0]) && InKernel(k[1]) && InKernel(k[2]) && InKernel(k[3]);
  }

  /** What the first n regions map virtual page u to. */
  ghost function KernelView(kmap: seq<Region>, n: nat, u: nat): Mapping
    requires n <= |kmap| && forall j | 0 <= j < |kmap| :: InKernel(kmap[j])
  {
    if n == 0 then Absent
    else
      var k := kmap[n - 1];
      assert InKernel(k);
      if k.virt <= u < k.virt + k.pages then Mapped(k.phys + (u - k.virt), WithP(k.perm), []) else KernelView(kmap, n - 1, u)
  }

  lemma {:induction false} KernelAbsent(kmap: seq<Region>, n: nat, u: nat)
    requires n <= |kmap| && KernelMap(kmap) && forall j | 0 <= j < n :: !(kmap[j].virt <= u < kmap[j].virt + kmap[j].pages)
    ensures KernelView(kmap, n, u) == Absent
  {
    if n > 0 {
      KernelAbsent(kmap, n - 1, u);
    }
  }

  /**
   What the source's kmap maps: memory below PHYSTOP from page 0x80000 on, devices to themselves, nothing else. All of it
   is writable but the kernel's text, which ends where its data start.
   */
  lemma KmapMaps(data: nat, v: nat)
    requires 0x8_0100 < data < 0x8_e000 && v < ALL
    ensures KernelMap(Kmap(data))
    ensures var m := KernelView(Kmap(data), 4, v);
            if 0x8_0000 <= v < 0x8_e000 then m == Mapped(v - 0x8_0000, if 0x8_0100 <= v < data then 1 else 3, [])
            else if 0xf_e000 <= v then m == Mapped(v, 3, [])
            else m == Absent
  {
    var k := Kmap(data);
    KmapIsKernelMap(data);
    assert KernelView(k, 0, v) == Absent;
    assert KernelView(k, 1, v) == if 0x8_0000 <= v < 0x8_0100 then Mapped(v - 0x8_0000, 3, []) else Absent;
    assert KernelView(k, 2, v) == if 0x8_0100 <= v < data then Mapped(v - 0x8_0000, 1, []) else KernelView(k, 1, v);
    assert KernelView(k, 3, v) == if data <= v < 0x8_e000 then Mapped(v - 0x8_0000, 3, []) else KernelView(k, 2, v);
  }

  /** The regions before do not map a page of region n. */
  lemma NoneYet(kmap: seq<Region>, n: nat)
    requires n < |kmap| && KernelMap(kmap)
    ensures forall u: nat | kmap[n].virt <= u < kmap[n].virt + kmap[n].pages :: KernelView(kmap, n, u) == Absent
  {
    forall u: nat | kmap[n].virt <= u < kmap[n].virt + kmap[n].pages
      ensures KernelView(kmap, n, u) == Absent
    {
      forall j | 0 <= j < n
        ensures !(kmap[j].virt <= u < kmap[j].virt + kmap[j].pages)
      {
        assert !Overlap(kmap[j], kmap[n]);
      }
      KernelAbsent(kmap, n, u);
    }
  }

  /** The first n pages of the region are mapped for d; nothing else changed. */
  ghost predicate RegionMapped(x: State, y: State, d: nat, k: Region, n: nat)
    requires InKernel(k)
  {
    && Sized(x) && Sized(y) && y.dirs == x.dirs
    && (forall e: nat, u: nat | e in x.dirs && u < ALL ::
          View(y, e, u) == if e == d && k.virt <= u < k.virt + n then Mapped(k.phys + (u - k.virt), WithP(k.perm), [])
                           else View(x, e, u))
  }

  /** That is all, and the pages in hand are as they were. */
  ghost predicate RegionOnly(x: State, y: State, d: nat, k: Region, n: nat, held: set<nat>)
    requires InKernel(k)
  {
    && RegionMapped(x, y, d, k, n) && Outside(y.owner, d) == Outside(x.owner, d)
    && (forall q | q in held :: q < |x.mem| && q < |y.mem| && y.mem[q] == x.mem[q])
  }

  /** A page of the region is mapped. */
  ghost predicate RegionTaken(x: State, d: nat, k: Region)
    requires Sized(x) && d in x.dirs && InKernel(k)
  {
    exists u: nat | k.virt <= u < k.virt + k.pages :: View(x, d, u).Mapped?
  }

  lemma RegionSame(x: State, y: State, z: State, d: nat, k: Region, n: nat, v: nat)
    requires InKernel(k) && n < k.pages && RegionMapped(x, y, d, k, n) && SameViews(y, z) && v == k.virt + n && d in x.dirs
    ensures RegionMapped(x, z, d, k, n) && (View(y, d, v).Mapped? ==> RegionTaken(x, d, k))
  {
    assert View(y, d, v) == View(x, d, v);
  }

  lemma RegionNext(x: State, y: State, z: State, d: nat, k: Region, n: nat, v: nat, m: Mapping)
    requires InKernel(k) && n < k.pages && RegionMapped(x, y, d, k, n)
    requires v == k.virt + n && m == Mapped(k.phys + n, WithP(k.perm), []) && OneView(y, z, d, v, m)
    ensures RegionMapped(x, z, d, k, n + 1)
  {
  }

  /** Directory d and its page tables are new in y; all else is as in x. */
  ghost predicate NewSpace(x: State, y: State, d: nat) {
    d !in x.dirs && y.dirs == x.dirs + {d} && Outside(y.owner, d) == x.owner && OthersSame(x, y, d)
  }

  /** The new directory d maps the first n regions and nothing else. */
  ghost predicate KernelOnly(x: State, y: State, d: nat, kmap: seq<Region>, n: nat)
    requires n <= |kmap| && KernelMap(kmap)
  {
    NewSpace(x, y, d) && forall u: nat | u < ALL :: View(y, d, u) == KernelView(kmap, n, u)
  }

  lemma NotTaken(x: State, y: State, d: nat, kmap: seq<Region>, n: nat)
    requires KernelMap(kmap) && n < |kmap| && KernelOnly(x, y, d, kmap, n)
    ensures !RegionTaken(y, d, kmap[n])
  {
    NoneYet(kmap, n);
  }

  lemma RegionAdded(x: State, y: State, z: State, d: nat, kmap: seq<Region>, n: nat, j: nat)
    requires KernelMap(kmap) && n < |kmap| && KernelOnly(x, y, d, kmap, n)
    requires RegionMapped(y, z, d, kmap[n], j) && Outside(z.owner, d) == Outside(y.owner, d)
    ensures NewSpace(x, z, d) && (j == kmap[n].pages ==> KernelOnly(x, z, d, kmap, n + 1))
  {
  }

  // The user half.

  /** In the address space of d the pages from a to b are mapped to zeroed frames; nothing else changed. */
  ghost predicate Grew(x: State, y: State, d: nat, a: nat, b: nat) {
    && Sized(x) && Sized(y) && y.dirs == x.dirs
    && (forall e: nat, u: nat | e in x.dirs && u < ALL ::
          if e == d && a <= u < b
          then View(y, e, u).Mapped? && View(y, e, u).flags == 7 && View(y, e, u).page == ZeroPage()
          else View(y, e, u) == View(x, e, u))
  }

  lemma GrewNext(x: State, y: State, z: State, d: nat, a: nat, v: nat, m: Mapping, done: bool)
    requires Grew(x, y, d, a, v) && a <= v < ALL && d in x.dirs
    requires if done then m.Mapped? && m.flags == 7 && m.page == ZeroPage() && OneView(y, z, d, v, m) else SameViews(y, z)
    ensures Grew(x, z, d, a, if done then v + 1 else v) && View(y, d, v) == View(x, d, v)
  {
  }

  lemma GrewCleared(x: State, y: State, z: State, d: nat, a: nat, b: nat, end: nat)
    requires Grew(x, y, d, a, b) && b <= end && Cleared(y, z, d, a, end)
    ensures Cleared(x, z, d, a, end)
  {
  }

  datatype Growth = Size(n: nat) | Zero | Panic

  // Counting page tables.

  /** The entries of directory d that have a page table. */
  ghost function Tables(x: State, d: nat): set<nat>
    requires Sized(x) && d in x.dirs
  {
    set i: nat | i < WORDS && Present(Pde(x, d, i))
  }

  /** The page table of entry i, of 1024 pages, maps a page from a up to b. */
  ghost predicate Serves(i: nat, a: nat, b: nat) {
    a < b && i * WORDS < b && a < (i + 1) * WORDS
  }

  /** The entries whose page tables map the pages from a up to b. */
  ghost function Spanned(a: nat, b: nat): (r: set<nat>) {
    set i: nat | i < b && Serves(i, a, b)
  }

  lemma SpannedNext(a: nat, b: nat)
    requires a <= b
    ensures Spanned(a, b + 1) == Spanned(a, b) + {b / WORDS}
  {
  }

  /** How many page tables a directory with the tables `had` lacks for the pages from a up to b. */
  ghost function Lacks(had: set<nat>, a: nat, b: nat): nat {
    SubsetCard(had, had + Spanned(a, b));
    |had + Spanned(a, b)| - |had|
  }

  lemma MappedHasTable(x: State, d: nat, v: nat)
    requires Sized(x) && d in x.dirs && v < ALL && View(x, d, v).Mapped?
    ensures v / WORDS in Tables(x, d)
  {
  }

  /** The first page from a up to end that is mapped (or, with `mapped` false, not mapped), or end. */
  ghost function First(x: State, d: nat, a: nat, end: nat, mapped: bool): (s: nat)
    requires Sized(x) && d in x.dirs && a <= end <= ALL
    ensures a <= s <= end && (forall u: nat | a <= u < s :: View(x, d, u).Mapped? != mapped)
    ensures s < end ==> View(x, d, s).Mapped? == mapped
    decreases end - a
  {
    if a == end || View(x, d, a).Mapped? == mapped then a else First(x, d, a + 1, end, mapped)
  }

  /** The free pages that `allocuvm` takes to get as far as it can: a frame and at times a page table for each page. */
  ghost function AllocPrice(x: State, d: nat, a: nat, end: nat): nat
    requires Sized(x) && d in x.dirs && a <= end <= ALL
  {
    var s := First(x, d, a, end, true);
    s - a + Lacks(Tables(x, d), a, s) + if s < end then 1 else 0
  }

  /**
   Page tables have been taken for the pages from a up to v, as far as the directory lacked them. The budget is the number
   of free pages and page tables together.
   */
  ghost predicate Spent(had: set<nat>, a: nat, v: nat, tables: set<nat>, budget: nat, free: nat) {
    Covers(had, a, v, tables) && budget == free + |tables|
  }

  /** The same after a turn with this result, in a stretch that needs so many page tables. */
  ghost predicate SpentOn(r: MapResult, had: set<nat>, a: nat, v: nat, need: nat, tables: set<nat>, budget: nat, free: nat) {
    match r
    case Done => Spent(had, a, v, tables, budget, free)
    case NoMem => budget < need
    case Remap => true
  }

  /** The page tables `had` and those for the pages from a up to b are these. */
  ghost predicate Covers(had: set<nat>, a: nat, b: nat, tables: set<nat>) {
    forall i: nat :: i in tables <==> i in had || Serves(i, a, b)
  }

  lemma CoversIs(had: set<nat>, a: nat, b: nat, tables: set<nat>)
    ensures Covers(had, a, b, tables) <==> tables == had + Spanned(a, b)
  {
  }

  /** A page table has been taken for page v of d, if it had none for it. */
  ghost predicate TableTaken(x: State, y: State, d: nat, v: nat, before: nat, now: nat)
    requires Sized(x) && Sized(y) && d in x.dirs && d in y.dirs
  {
    Tables(y, d) == Tables(x, d) + {v / WORDS} && before + |Tables(x, d)| == now + |Tables(y, d)|
  }

  /** A frame for page v of d has been taken, and a page table if it had none for it. */
  ghost predicate PageTaken(x: State, y: State, d: nat, v: nat, before: nat, now: nat)
    requires Sized(x) && Sized(y) && d in x.dirs && d in y.dirs
  {
    TableTaken(x, y, d, v, before, now + 1)
  }

  /** There are too few free pages for that. */
  ghost predicate TooFew(x: State, d: nat, v: nat, free: nat)
    requires Sized(x) && d in x.dirs
  {
    free < 1 + if v / WORDS in Tables(x, d) then 0 else 1
  }

  lemma SpentNext(had: set<nat>, a: nat, v: nat, tables: set<nat>, more: set<nat>, budget: nat, free: nat, left: nat)
    requires Spent(had, a, v, tables, budget, free) && a <= v
    requires more == tables + {v / WORDS} && free + |tables| == left + |more|
    ensures Spent(had, a, v + 1, more, budget, left)
  {
    SpannedNext(a, v);
  }

  lemma OneMore(tables: set<nat>, i: nat, free: nat)
    requires free < 1 + if i in tables then 0 else 1
    ensures free + |tables| <= |tables + {i}| <= |tables| + 1
  {
    if i in tables {
      assert tables + {i} == tables;
    }
  }

  /** The tables taken up to v, with the one for v itself, are no more than those up to b. */
  lemma SpentMore(had: set<nat>, a: nat, v: nat, b: nat, tables: set<nat>, all: set<nat>)
    requires Covers(had, a, v, tables) && a <= v < b && Covers(had, a, b, all)
    ensures |tables + {v / WORDS}| <= |all|
  {
    SubsetCard(tables + {v / WORDS}, all);
  }

  /** What `allocuvm` has taken when it is at page v: it has met no mapped page. */
  ghost predicate AllocPaid(x: State, d: nat, a: nat, v: nat, tables: set<nat>, before: nat, now: nat)
    requires Sized(x) && d in x.dirs && a <= v <= ALL
  {
    && Spent(Tables(x, d), a, v, tables, before + |Tables(x, d)|, now + (v - a))
    && forall u: nat | a <= u < v :: View(x, d, u).Absent?
  }

  /** Why the loop of `allocuvm` stops at page v, with these page tables and this many free pages. */
  ghost predicate Stops(x: State, d: nat, v: nat, m: MapResult, tables: set<nat>, now: nat)
    requires Sized(x) && d in x.dirs && v < ALL
  {
    match m
    case Done => false
    case Remap => now >= 1 && View(x, d, v).Mapped?
    case NoMem => now < 1 + if v / WORDS in tables then 0 else 1
  }

  /** What a turn that could not map its page leaves in hand. */
  ghost predicate InHand(before: set<nat>, after: set<nat>, p: Option) {
    if p.None? then after == before else p.value !in before && after == before + {p.value}
  }

  lemma AllocPaidNext(x: State, d: nat, a: nat, v: nat, tables: set<nat>, before: nat, now: nat, more: set<nat>, left: nat)
    requires Sized(x) && d in x.dirs && a <= v < ALL && AllocPaid(x, d, a, v, tables, before, now) && View(x, d, v).Absent?
    requires more == tables + {v / WORDS} && now + |tables| == left + 1 + |more|
    ensures AllocPaid(x, d, a, v + 1, more, before, left)
  {
    SpentNext(Tables(x, d), a, v, tables, more, before + |Tables(x, d)|, now + (v - a), left + 1 + (v - a));
  }

  /** Where memory runs out at page v, there was less of it than the price. */
  lemma AllocShort(x: State, d: nat, a: nat, v: nat, end: nat, tables: set<nat>, before: nat, now: nat)
    requires Sized(x) && d in x.dirs && a <= v < end <= ALL && AllocPaid(x, d, a, v, tables, before, now)
    requires now < 1 + if v / WORDS in tables then 0 else 1
    ensures before < AllocPrice(x, d, a, end)
  {
    var had, s := Tables(x, d), First(x, d, a, end, true);
    if v == s {
      MappedHasTable(x, d, v);
      CoversIs(had, a, v, tables);
    } else {
      SpentMore(had, a, v, s, tables, had + Spanned(a, s));
      OneMore(tables, v / WORDS, now);
    }
  }

  /** Where it does not, as far as a mapped page or to the end, there was enough. */
  lemma AllocEnough(x: State, d: nat, a: nat, v: nat, end: nat, tables: set<nat>, before: nat, now: nat)
    requires Sized(x) && d in x.dirs && a <= v <= end <= ALL && AllocPaid(x, d, a, v, tables, before, now)
    requires v < end ==> now >= 1 && View(x, d, v).Mapped?
    ensures First(x, d, a, end, true) == v && before >= AllocPrice(x, d, a, end)
  {
    CoversIs(Tables(x, d), a, v, tables);
  }

  lemma {:induction false} LacksAtMost(had: set<nat>, a: nat, b: nat, all: set<nat>)
    requires a <= b && Covers(had, a, b, all)
    ensures |all| <= |had| + b - a
    decreases b
  {
    if a == b {
      assert all == had;
    } else {
      var most, i := had + Spanned(a, b - 1), (b - 1) / WORDS;
      LacksAtMost(had, a, b - 1, most);
      OneMore(most, i, 0);
      assert all == most + {i};
    }
  }

  /** Two free pages for each new one are enough. */
  lemma PriceAtMost(x: State, d: nat, a: nat, end: nat)
    requires Sized(x) && d in x.dirs && a <= end <= ALL
    ensures AllocPrice(x, d, a, end) <= 2 * (end - a)
  {
    var s := First(x, d, a, end, true);
    LacksAtMost(Tables(x, d), a, s, Tables(x, d) + Spanned(a, s));
  }

  /** The entries whose page tables map the first n regions. */
  ghost function KernelTables(kmap: seq<Region>, n: nat): (r: set<nat>)
    requires n <= |kmap|
  {
    if n == 0 then {}
    else KernelTables(kmap, n - 1) + Spanned(kmap[n - 1].virt, kmap[n - 1].virt + kmap[n - 1].pages)
  }

  lemma RegionTables(kmap: seq<Region>, n: nat, r: MapResult, tables: set<nat>, budget: nat, free: nat)
    requires n < |kmap|
    requires SpentOn(r, KernelTables(kmap, n), kmap[n].virt, kmap[n].virt + kmap[n].pages, |KernelTables(kmap, n + 1)|,
                     tables, budget, free)
    ensures r.Done? ==> tables == KernelTables(kmap, n + 1) && budget == free + |tables|
    ensures r.NoMem? ==> budget < |KernelTables(kmap, n + 1)|
  {
    CoversIs(KernelTables(kmap, n), kmap[n].virt, kmap[n].virt + kmap[n].pages, tables);
  }

  lemma {:induction false} KernelTablesGrow(kmap: seq<Region>, n: nat)
    requires n <= |kmap|
    ensures KernelTables(kmap, n) <= KernelTables(kmap, |kmap|)
    decreases |kmap| - n
  {
    if n < |kmap| {
      KernelTablesGrow(kmap, n + 1);
    }
  }

  lemma {:induction false} KernelTablesHigh(kmap: seq<Region>, n: nat)
    requires n <= |kmap| && KernelMap(kmap)
    ensures forall i | i in KernelTables(kmap, n) :: USER / WORDS <= i
  {
    if n > 0 {
      KernelTablesHigh(kmap, n - 1);
      assert InKernel(kmap[n - 1]);
    }
  }

  lemma SpannedIs(a: nat, b: nat)
    requires a < b
    ensures Spanned(a, b) == Interval(a / WORDS, (b - 1) / WORDS + 1)
  {
  }

  lemma SpannedCount(a: nat, b: nat, c: nat, d: nat)
    requires a < b && c < d && (b - 1) / WORDS < c / WORDS
    ensures |Spanned(a, b) + Spanned(c, d)| == (b - 1) / WORDS - a / WORDS + 1 + (d - 1) / WORDS - c / WORDS + 1
  {
    SpannedIs(a, b);
    SpannedIs(c, d);
    assert Spanned(a, b) !! Spanned(c, d);
  }

  lemma SpannedJoin(a: nat, b: nat, c: nat)
    requires a <= b <= c
    ensures Spanned(a, b) + Spanned(b, c) == Spanned(a, c)
  {
  }

  /** The kernel's mappings take 64 page tables, wherever its data start; so `fork` of n pages takes these free pages. */
  lemma KmapTables(data: nat)
    requires 0x8_0100 < data < 0x8_e000
    ensures |KernelTables(Kmap(data), 4)| == 64
    ensures forall n: nat :: CopyPrice(Kmap(data), n) == 65 + n + (n + WORDS - 1) / WORDS
  {
    KmapSpans(data);
    SpannedCount(0x8_0000, 0x8_e000, 0xf_e000, 0x10_0000);
  }

  lemma KmapSpans(data: nat)
    requires 0x8_0100 < data < 0x8_e000
    ensures KernelTables(Kmap(data), 4) == Spanned(0x8_0000, 0x8_e000) + Spanned(0xf_e000, 0x10_0000)
  {
    var k := Kmap(data);
    SpannedJoin(0x8_0000, 0x8_0100, data);
    SpannedJoin(0x8_0000, data, 0x8_e000);
    assert KernelTables(k, 1) == {} + Spanned(0x8_0000, 0x8_0100) == Spanned(0x8_0000, 0x8_0100);
    assert KernelTables(k, 2) == Spanned(0x8_0000, data);
    assert KernelTables(k, 3) == Spanned(0x8_0000, 0x8_e000);
    assert k[3].virt + k[3].pages == 0x10_0000;
  }

  /**
   The free pages that `copyuvm` takes for the first n pages: the directory, the page tables of the kernel half, a frame for
   each page and a page table for each 1024 of them.
   */
  ghost function CopyPrice(kmap: seq<Region>, n: nat): nat {
    1 + |KernelTables(kmap, |kmap|)| + n + (n + WORDS - 1) / WORDS
  }

  /** The page tables of the kernel half are none that the user half needs. */
  lemma UserLacks(kmap: seq<Region>, n: nat)
    requires KernelMap(kmap) && n <= USER
    ensures Lacks(KernelTables(kmap, |kmap|), 0, n) == (n + WORDS - 1) / WORDS
  {
    var had, q := KernelTables(kmap, |kmap|), (n + WORDS - 1) / WORDS;
    KernelTablesHigh(kmap, |kmap|);
    if n > 0 {
      SpannedIs(0, n);
    }
    assert had !! Interval(0, q);
  }

  lemma {:induction false} KernelAbsentBelow(kmap: seq<Region>, n: nat, u: nat)
    requires n <= |kmap| && KernelMap(kmap) && u < USER
    ensures KernelView(kmap, n, u) == Absent
  {
    if n > 0 {
      KernelAbsentBelow(kmap, n - 1, u);
      assert InKernel(kmap[n - 1]);
    }
  }

  /** The new address space e has the kernel's mappings, and copies of the first n pages of d. */
  ghost predicate Copied(x: State, y: State, d: nat, e: nat, n: nat, kmap: seq<Region>)
    requires KernelMap(kmap)
  {
    && NewSpace(x, y, e) && d in x.dirs && n <= USER
    && (forall u: nat | u < n :: CopyOf(View(x, d, u), View(y, e, u)))
    && (forall u: nat | n <= u < ALL :: View(y, e, u) == KernelView(kmap, |kmap|, u))
  }

  /** The same flags and contents on another frame. */
  ghost predicate CopyOf(m: Mapping, c: Mapping) {
    m.Mapped? && c.Mapped? && c.flags == m.flags && c.page == m.page && c.frame != m.frame
  }

  lemma CopiedNext(x: State, y: State, z: State, d: nat, e: nat, v: nat, kmap: seq<Region>, c: Mapping)
    requires KernelMap(kmap) && Copied(x, y, d, e, v, kmap) && v < USER
    requires OneView(y, z, e, v, c) && Outside(z.owner, e) == Outside(y.owner, e) && CopyOf(View(x, d, v), c)
    ensures Copied(x, z, d, e, v + 1, kmap)
  {
  }

  lemma NewSpaceSame(x: State, y: State, z: State, e: nat)
    requires NewSpace(x, y, e) && SameViews(y, z) && Outside(z.owner, e) == Outside(y.owner, e)
    ensures NewSpace(x, z, e)
  {
  }

  /** Where memory runs out at page v, there was less of it than the copies up to b take. */
  lemma CopyShort(had: set<nat>, v: nat, b: nat, tables: set<nat>, budget: nat, free: nat)
    requires Spent(had, 0, v, tables, budget, free + v) && v < b && free < 1 + if v / WORDS in tables then 0 else 1
    ensures budget < b + |had + Spanned(0, b)|
  {
    SpentMore(had, 0, v, b, tables, had + Spanned(0, b));
    OneMore(tables, v / WORDS, free);
  }

  /** What is mapped in the first n pages, and whether the next one is, gives the first page that is missing. */
  lemma FirstMissing(x: State, d: nat, v: nat, n: nat)
    requires Sized(x) && d in x.dirs && v <= n <= ALL && forall u: nat | u < v :: View(x, d, u).Mapped?
    ensures First(x, d, 0, n, false) >= v
    ensures v == n || View(x, d, v).Absent? ==> First(x, d, 0, n, false) == v
    ensures v < n && View(x, d, v).Mapped? ==> First(x, d, 0, n, false) > v
  {
  }

  /** Where the loop of `copyuvm` stops, and the price of the pages before the first that is missing. */
  lemma CopyEnds(x: State, d: nat, kmap: seq<Region>, n: nat, m: MapResult, v: nat, tables: set<nat>, budget: nat, free: nat)
    requires Sized(x) && d in x.dirs && KernelMap(kmap) && v <= n <= USER && forall u: nat | u < v :: View(x, d, u).Mapped?
    requires Spent(KernelTables(kmap, |kmap|), 0, v, tables, budget, free + v)
    requires match m
             case Done => v == n
             case NoMem => v < n && View(x, d, v).Mapped? && free < 1 + if v / WORDS in tables then 0 else 1
             case Remap => v < n && View(x, d, v).Absent?
    ensures m.NoMem? <==> 1 + budget < CopyPrice(kmap, First(x, d, 0, n, false))
    ensures !m.NoMem? ==> (m.Remap? <==> First(x, d, 0, n, false) < n)
  {
    var had, stop := KernelTables(kmap, |kmap|), First(x, d, 0, n, false);
    FirstMissing(x, d, v, n);
    UserLacks(kmap, stop);
    CoversIs(had, 0, v, tables);
    if m.NoMem? {
      CopyShort(had, v, stop, tables, budget, free);
    }
  }

  datatype Copy = NewDir(e: nat) | Failed | Missing

  datatype MapResult = Done | NoMem | Remap

  /** The page allocator and the page tables over it. */
  class Spaces {
    const pm: PhysMem
    ghost var dirs: set<nat>
    ghost var owner: map<nat, Pos>
    /** Pages from kalloc that the running operation has not put anywhere yet. */
    ghost var held: set<nat>

    constructor (pm: PhysMem)
      requires pm.Valid() && forall p: nat | pm.lo <= p < pm.hi :: p in pm.free
      ensures Valid() && this.pm == pm && dirs == {} && held == {}
    {
      this.pm, dirs, owner, held := pm, {}, map[], {};
    }

    ghost function Now(): State
      reads this, pm
    {
      State(pm.lo, pm.hi, pm.mem, dirs, owner)
    }

    ghost predicate Valid()
      reads this, pm
    {
      pm.Valid() && Ok(Now()) && Parted(pm.lo, pm.hi, pm.free, owner, held)
    }

    method Alloc() returns (r: Option)
      requires Valid()
      modifies this`held, pm`head, pm`free
      ensures Valid() && (r.None? <==> old(pm.free) == [])
      ensures r.None? ==> held == old(held)
      ensures r.Some? ==> held == old(held) + {r.value} && r.value !in old(held) && |pm.free| + 1 == |old(pm.free)|
    {
      r := pm.Alloc();
      if r.Some? {
        held := held + {r.value};
      }
    }

    /** Give back a page in hand. */
    method Free(p: nat)
      requires Valid() && p in held
      modifies this`held, pm`head, pm`free, pm`mem
      ensures Valid() && held == old(held) - {p} && SameViews(old(Now()), Now())
    {
      ghost var x := Now();
      var ok := pm.Free(p);
      assert ok;
      held := held - {p};
      Elsewhere(x, pm.mem);
    }

    /** Write a page in hand. */
    method Fill(p: nat, z: Page)
      requires Valid() && p in held && |z| == WORDS
      modifies pm`mem
      ensures Valid() && SameViews(old(Now()), Now()) && pm.mem == old(pm.mem)[p := z]
    {
      ghost var x := Now();
      pm.Fill(p, z);
      Elsewhere(x, pm.mem);
    }

    /** `walkpgdir` without alloc: the page table for virtual page v, if there is one. */
    method Walk(d: nat, v: nat) returns (r: Option)
      requires Valid() && d in dirs && v < ALL
      ensures r.Some? <==> Present(Pde(Now(), d, v / WORDS))
      ensures r.Some? ==> HasTable(Now(), d, v) && r.value == Addr(Pde(Now(), d, v / WORDS)) && TableAt(Now(), d, v, r.value)
    {
      var w := pm.mem[d][v / WORDS];
      if !Present(w) {
        return None;
      }
      TableFacts(Now(), d, v);
      return Some(Addr(w));
    }

    /** `walkpgdir` with alloc: it creates the page table if need be, and fails exactly when there is no page for it. */
    method WalkAlloc(d: nat, v: nat) returns (r: Option)
      requires Valid() && d in dirs && v < ALL
      modifies this`owner, this`held, pm`head, pm`free, pm`mem
      ensures Valid() && held == old(held) && SameViews(old(Now()), Now()) && Outside(owner, d) == Outside(old(owner), d)
      ensures r.None? <==> old(pm.free) == [] && !Present(Pde(old(Now()), d, v / WORDS))
      ensures r.Some? ==> HasTable(Now(), d, v) && TableAt(Now(), d, v, r.value)
      ensures r.Some? ==> TableTaken(old(Now()), Now(), d, v, |old(pm.free)|, |pm.free|)
      ensures forall p | p in held :: pm.mem[p] == old(pm.mem)[p]
    {
      r := Walk(d, v);
      if r.None? {
        r := Alloc();
        if r.Some? {
          AddTableAt(d, v / WORDS, r.value);
          TableFacts(Now(), d, v);
        }
      }
    }

    /** Clear the page b in hand and make it the page table for entry i of the directory. */
    method AddTableAt(d: nat, i: nat, b: nat)
      requires Valid() && d in dirs && i < WORDS && b in held && !Present(Pde(Now(), d, i))
      modifies this`owner, this`held, pm`mem
      ensures Valid() && held == old(held) - {b} && SameViews(old(Now()), Now()) && Outside(owner, d) == Outside(old(owner), d)
      ensures Pde(Now(), d, i) == Entry(b, 7) && Tables(Now(), d) == Tables(old(Now()), d) + {i}
      ensures forall p | p in held :: pm.mem[p] == old(pm.mem)[p]
    {
      Fill(b, ZeroPage());
      ghost var x := Now();
      assert Tables(x, d) == Tables(old(Now()), d);
      LinkTable(d, i, b);
      AddTableTables(x, d, i, b);
    }

    method LinkTable(d: nat, i: nat, b: nat)
      requires Valid() && d in dirs && b in held && CanAddTable(Now(), d, i, b)
      modifies this`owner, this`held, pm`mem
      ensures Valid() && held == old(held) - {b} && Now() == AddTable(old(Now()), d, i, b)
      ensures SameViews(old(Now()), Now()) && Outside(owner, d) == Outside(old(owner), d)
    {
      AddTableKeeps(Now(), d, i, b);
      OutsideAdd(owner, d, b, Table(d, i));
      pm.Poke(d, i, Entry(b, 7));
      owner, held := owner[b := Table(d, i)], held - {b};
    }

    /** Write the entry for v in its table t, to map a page in hand or a page of the kernel half. */
    method WriteEntry(d: nat, v: nat, t: nat, p: nat, flags: nat)
      requires Valid() && TableAt(Now(), d, v, t) && !Present(Pte(Now(), d, v)) && flags < PGSIZE && flags % 2 == 1
      requires v < USER ==> p in held
      modifies this`owner, this`held, pm`mem
      ensures Valid() && held == (if v < USER then old(held) - {p} else old(held))
      ensures OneView(old(Now()), Now(), d, v, MappedTo(old(Now()), v, p, flags)) && Outside(owner, d) == Outside(old(owner), d)
      ensures forall q | q in held :: pm.mem[q] == old(pm.mem)[q]
      ensures Tables(Now(), d) == Tables(old(Now()), d)
    {
      ghost var x, w := Now(), Entry(p, flags);
      ghost var o := if v < USER then owner[p := Frame(d, v)] else owner;
      SetEntryKeeps(x, d, v, w, o);
      SetEntryView(x, d, v, w, o);
      if v < USER {
        OutsideAdd(owner, d, p, Frame(d, v));
      }
      pm.Poke(t, v % WORDS, Entry(p, flags));
      owner := o;
      if v < USER {
        held := held - {p};
      }
      assert Now() == SetEntry(x, d, v, w, o);
      SetEntrySameTables(x, d, v, w, o);
    }

    /** One turn of the loop of `mappages`. It panics, "remap", on a page that is mapped. */
    method Mappage(d: nat, v: nat, p: nat, perm: nat) returns (r: MapResult)
      requires Valid() && d in dirs && v < ALL && perm < PGSIZE && (v < USER ==> p in held)
      modifies this`owner, this`held, pm`head, pm`free, pm`mem
      ensures Valid() && Outside(owner, d) == Outside(old(owner), d)
      ensures r.Done? ==> held == (if v < USER then old(held) - {p} else old(held))
      ensures r.Done? ==> OneView(old(Now()), Now(), d, v, MappedTo(old(Now()), v, p, WithP(perm)))
      ensures !r.Done? ==> held == old(held) && SameViews(old(Now()), Now())
      ensures r.Done? ==> View(old(Now()), d, v).Absent?
      ensures r.Done? ==> TableTaken(old(Now()), Now(), d, v, |old(pm.free)|, |pm.free|)
      ensures r.NoMem? <==> old(pm.free) == [] && v / WORDS !in Tables(old(Now()), d)
      ensures !r.NoMem? ==> (r.Remap? <==> View(old(Now()), d, v).Mapped?)
      ensures forall q | q in held :: pm.mem[q] == old(pm.mem)[q]
    {
      var t := WalkAlloc(d, v);
      if t.None? {
        return NoMem;
      }
      assert View(Now(), d, v) == View(old(Now()), d, v);
      if Present(pm.mem[t.value][v % WORDS]) {
        return Remap;
      }
      WriteEntry(d, v, t.value, p, WithP(perm));
      return Done;
    }

    /** The turn of the loop of `deallocuvm` that frees the frame at v. */
    method Unmap(d: nat, v: nat, t: nat)
      requires Valid() && v < USER && TableAt(Now(), d, v, t) && Present(Pte(Now(), d, v))
      modifies this`owner, pm`head, pm`free, pm`mem
      ensures Valid() && OneView(old(Now()), Now(), d, v, Absent) && Outside(owner, d) == Outside(old(owner), d)
      ensures forall q | q in held :: pm.mem[q] == old(pm.mem)[q]
    {
      ghost var x := Now();
      var f := Addr(pm.mem[t][v % WORDS]);
      assert FrameOk(x, d, v) && PosOk(x, f);
      UnmapKeeps(x, d, v, t, f, JunkPage(pm.head));
      var ok := pm.Free(f);
      assert ok;
      pm.Poke(t, v % WORDS, 0);
      owner := owner - {f};
    }

    /**
     `deallocuvm`: the user pages from newsz up to oldsz are gone, and their frames free. It panics nowhere, and skips
     what has no page table.
     */
    method Deallocuvm(d: nat, oldsz: nat, newsz: nat) returns (r: nat)
      requires Valid() && d in dirs && oldsz <= KERNBASE
      modifies this`owner, pm`head, pm`free, pm`mem
      ensures Valid() && Outside(owner, d) == Outside(old(owner), d)
      ensures r == if newsz >= oldsz then oldsz else newsz
      ensures Cleared(old(Now()), Now(), d, PagesFor(newsz), PagesFor(oldsz))
      ensures forall q | q in held :: pm.mem[q] == old(pm.mem)[q]
    {
      if newsz >= oldsz {
        return oldsz;
      }
      ghost var x := Now();
      var a, end := PagesFor(newsz), PagesFor(oldsz);
      while a < end
        invariant Valid() && Outside(owner, d) == Outside(old(owner), d) && PagesFor(newsz) <= a
        invariant Cleared(x, Now(), d, PagesFor(newsz), if a < end then a else end)
        invariant forall q | q in held :: pm.mem[q] == old(pm.mem)[q]
      {
        ghost var y := Now();
        var t := Walk(d, a);
        if t.None? {
          ClearedSkip(x, y, d, PagesFor(newsz), a, end);
          a := (a / WORDS + 1) * WORDS - 1;
        } else if Present(pm.mem[t.value][a % WORDS]) {
          Unmap(d, a, t.value);
          ClearedNext(x, y, Now(), d, PagesFor(newsz), a);
        } else {
          ClearedHere(x, y, d, PagesFor(newsz), a);
        }
        a := a + 1;
      }
      return newsz;
    }

    /** The loop of `freevm` that frees the page tables of d, in a run of freevm that has emptied the user half in x. */
    method FreeTables(d: nat, ghost x: State)
      requires Valid() && Now() == x && d in dirs
      modifies this`owner, pm`head, pm`free, pm`mem
      ensures pm.Valid() && Parted(pm.lo, pm.hi, pm.free, owner, held) && owner == WithoutTables(x.owner, d, WORDS)
      ensures forall b | b in owner || b in held :: pm.mem[b] == x.mem[b]
    {
      assert WithoutTables(x.owner, d, 0) == owner;
      var i := 0;
      while i < WORDS
        invariant i <= WORDS && pm.Valid() && Parted(pm.lo, pm.hi, pm.free, owner, held)
        invariant owner == WithoutTables(x.owner, d, i)
        invariant forall b | b in owner || b in held :: pm.mem[b] == x.mem[b]
      {
        TablesNext(x, d, i);
        assert pm.mem[d] == x.mem[d];
        if Present(pm.mem[d][i]) {
          FreeOwned(Addr(pm.mem[d][i]));
        }
        i := i + 1;
      }
    }

    /** Free a page that has an owner. */
    method FreeOwned(b: nat)
      requires pm.Valid() && Parted(pm.lo, pm.hi, pm.free, owner, held) && b in owner
      modifies this`owner, pm`head, pm`free, pm`mem
      ensures pm.Valid() && Parted(pm.lo, pm.hi, pm.free, owner, held) && owner == old(owner) - {b}
      ensures forall c | 0 <= c < pm.hi && c != b :: pm.mem[c] == old(pm.mem)[c]
    {
      var ok := pm.Free(b);
      assert ok;
      owner := owner - {b};
    }

    /** `freevm`: exactly the pages of the address space of d become free, and no other address space changes. */
    method Freevm(d: nat)
      requires Valid() && d in dirs
      modifies this`dirs, this`owner, pm`head, pm`free, pm`mem
      ensures Valid() && dirs == old(dirs) - {d} && owner == Outside(old(owner), d) && OthersSame(old(Now()), Now(), d)
      ensures forall q | q in held :: pm.mem[q] == old(pm.mem)[q]
    {
      var _ := Deallocuvm(d, KERNBASE, 0);
      ghost var x := Now();
      FreeTables(d, x);
      FreeOwned(d);
      DroppedOwners(x, d);
      DropKeeps(x, d);
      dirs := dirs - {d};
      Elsewhere(Drop(x, d), pm.mem);
      assert Now() == Drop(x, d).(mem := pm.mem);
    }

    /** One turn of `mappages` for a stretch of the kernel half, in a call that started in x. */
    method MapTurn(d: nat, k: Region, n: nat, v: nat, ghost x: State) returns (r: MapResult)
      requires Valid() && d in dirs && InKernel(k) && n < k.pages && v == k.virt + n && RegionMapped(x, Now(), d, k, n)
      modifies this`owner, this`held, pm`head, pm`free, pm`mem
      ensures Valid() && held == old(held) && Outside(owner, d) == Outside(old(owner), d)
      ensures RegionMapped(x, Now(), d, k, if r.Done? then n + 1 else n)
      ensures r.Done? ==> TableTaken(old(Now()), Now(), d, v, |old(pm.free)|, |pm.free|)
      ensures r.NoMem? ==> old(pm.free) == [] && v / WORDS !in Tables(old(Now()), d)
      ensures r.Remap? ==> RegionTaken(x, d, k)
      ensures forall q | q in held :: pm.mem[q] == old(pm.mem)[q]
    {
      ghost var y := Now();
      var p := k.phys + n;
      r := Mappage(d, v, p, k.perm);
      if r.Done? {
        RegionNext(x, y, Now(), d, k, n, v, MappedTo(y, v, p, WithP(k.perm)));
      } else {
        RegionSame(x, y, Now(), d, k, n, v);
      }
    }

    /** A turn, and what has been taken after it: `had` are the page tables in x. */
    method PaidMap(d: nat, k: Region, n: nat, v: nat, ghost x: State, ghost had: set<nat>, ghost all: set<nat>,
                   ghost budget: nat)
        returns (r: MapResult)
      requires Valid() && d in dirs && InKernel(k) && n < k.pages && v == k.virt + n && RegionOnly(x, Now(), d, k, n, held)
      requires Spent(had, k.virt, v, Tables(Now(), d), budget, |pm.free|) && Covers(had, k.virt, k.virt + k.pages, all)
      modifies this`owner, this`held, pm`head, pm`free, pm`mem
      ensures Valid() && held == old(held) && RegionOnly(x, Now(), d, k, if r.Done? then n + 1 else n, held)
      ensures SpentOn(r, had, k.virt, v + 1, |all|, Tables(Now(), d), budget, |pm.free|)
      ensures r.Remap? ==> RegionTaken(x, d, k)
    {
      ghost var tables, now := Tables(Now(), d), |pm.free|;
      r := MapTurn(d, k, n, v, x);
      if r.Done? {
        SpentNext(had, k.virt, v, tables, Tables(Now(), d), budget, now, |pm.free|);
      } else if r.NoMem? {
        SpentMore(had, k.virt, v, k.virt + k.pages, tables, all);
      }
    }

    /** `mappages` for a stretch of the kernel half, of which it maps the first n pages. */
    method Mappages(d: nat, k: Region, ghost had: set<nat>, ghost all: set<nat>, ghost budget: nat)
        returns (r: MapResult, ghost n: nat)
      requires Valid() && d in dirs && InKernel(k)
      requires had == Tables(Now(), d) && Covers(had, k.virt, k.virt + k.pages, all) && budget == |pm.free| + |had|
      modifies this`owner, this`held, pm`head, pm`free, pm`mem
      ensures Valid() && held == old(held)
      ensures n <= k.pages && (r.Done? ==> n == k.pages) && RegionOnly(old(Now()), Now(), d, k, n, held)
      ensures r.Remap? ==> RegionTaken(old(Now()), d, k)
      ensures SpentOn(r, had, k.virt, k.virt + k.pages, |all|, Tables(Now(), d), budget, |pm.free|)
    {
      ghost var x := Now();
      var i, v := 0, k.virt;
      r := Done;
      while r.Done? && i < k.pages
        invariant i <= k.pages && v == k.virt + i && Valid() && held == old(held) && RegionOnly(x, Now(), d, k, i, held)
        invariant r.Remap? ==> RegionTaken(x, d, k)
        invariant SpentOn(r, had, k.virt, v, |all|, Tables(Now(), d), budget, |pm.free|)
        decreases r.Done?, k.pages - i
      {
        r := PaidMap(d, k, i, v, x, had, all, budget);
        if r.Done? {
          i, v := i + 1, v + 1;
        }
      }
      n := i;
    }

    /** Make the page b in hand an empty directory. */
    method MakeDir(b: nat)
      requires Valid() && b in held
      modifies this`dirs, this`owner, this`held, pm`mem
      ensures Valid() && dirs == old(dirs) + {b} && b !in old(dirs) && held == old(held) - {b}
      ensures owner == old(owner)[b := Dir] && OthersSame(old(Now()), Now(), b)
      ensures Tables(Now(), b) == {} && forall u: nat | u < ALL :: View(Now(), b, u) == Absent
      ensures forall q | q in held :: pm.mem[q] == old(pm.mem)[q]
    {
      Fill(b, ZeroPage());
      AddDirKeeps(Now(), b);
      dirs, owner, held := dirs + {b}, owner[b := Dir], held - {b};
    }

    /** One turn of the loop of `setupkvm`: the pages of its region are not mapped yet. */
    method AddRegion(d: nat, kmap: seq<Region>, n: nat, ghost x: State) returns (ok: bool)
      requires Valid() && KernelMap(kmap) && n < |kmap| && KernelOnly(x, Now(), d, kmap, n)
      requires Tables(Now(), d) == KernelTables(kmap, n)
      modifies this`owner, this`held, pm`head, pm`free, pm`mem
      ensures Valid() && held == old(held) && NewSpace(x, Now(), d)
      ensures ok ==> && KernelOnly(x, Now(), d, kmap, n + 1) && Tables(Now(), d) == KernelTables(kmap, n + 1)
                     && |old(pm.free)| + |KernelTables(kmap, n)| == |pm.free| + |KernelTables(kmap, n + 1)|
      ensures !ok ==> |old(pm.free)| + |KernelTables(kmap, n)| < |KernelTables(kmap, n + 1)|
      ensures forall q | q in held :: pm.mem[q] == old(pm.mem)[q]
    {
      ghost var y := Now();
      NotTaken(x, y, d, kmap, n);
      ghost var had, all := KernelTables(kmap, n), KernelTables(kmap, n + 1);
      CoversIs(had, kmap[n].virt, kmap[n].virt + kmap[n].pages, all);
      var m, j := Mappages(d, kmap[n], had, all, |pm.free| + |had|);
      RegionTables(kmap, n, m, Tables(Now(), d), old(|pm.free|) + |had|, |pm.free|);
      RegionAdded(x, y, Now(), d, kmap, n, j);
      assert !m.Remap?;
      ok := m.Done?;
    }

    /** The loop of `setupkvm`. */
    method AddRegions(d: nat, kmap: seq<Region>, ghost x: State) returns (ok: bool)
      requires Valid() && KernelMap(kmap) && KernelOnly(x, Now(), d, kmap, 0) && Tables(Now(), d) == {}
      modifies this`owner, this`held, pm`head, pm`free, pm`mem
      ensures Valid() && held == old(held) && NewSpace(x, Now(), d)
      ensures ok ==> && KernelOnly(x, Now(), d, kmap, |kmap|) && Tables(Now(), d) == KernelTables(kmap, |kmap|)
                     && |old(pm.free)| == |pm.free| + |KernelTables(kmap, |kmap|)|
      ensures !ok ==> |old(pm.free)| < |KernelTables(kmap, |kmap|)|
      ensures forall q | q in held :: pm.mem[q] == old(pm.mem)[q]
    {
      var n := 0;
      ok := true;
      while ok && n < |kmap|
        invariant n <= |kmap| && Valid() && held == old(held) && NewSpace(x, Now(), d)
        invariant ok ==> && KernelOnly(x, Now(), d, kmap, n) && Tables(Now(), d) == KernelTables(kmap, n)
                         && |old(pm.free)| == |pm.free| + |KernelTables(kmap, n)|
        invariant !ok ==> |old(pm.free)| < |KernelTables(kmap, n)|
        invariant forall q | q in held :: pm.mem[q] == old(pm.mem)[q]
      {
        ok := AddRegion(d, kmap, n, x);
        n := n + 1;
      }
      KernelTablesGrow(kmap, n);
      SubsetCard(KernelTables(kmap, n), KernelTables(kmap, |kmap|));
    }

    /**
     `setupkvm`: a directory with the kernel's mappings and no other, or no trace of it. It fails exactly when fewer pages
     are free than the directory and the page tables take.
     */
    method Setupkvm(kmap: seq<Region>) returns (r: Option)
      requires Valid() && KernelMap(kmap)
      modifies this`dirs, this`owner, this`held, pm`head, pm`free, pm`mem
      ensures Valid() && held == old(held)
      ensures r.None? ==> dirs == old(dirs) && owner == old(owner) && SameViews(old(Now()), Now())
      ensures r.Some? ==> KernelOnly(old(Now()), Now(), r.value, kmap, |kmap|)
      ensures r.None? <==> |old(pm.free)| < 1 + |KernelTables(kmap, |kmap|)|
      ensures r.Some? ==> && Tables(Now(), r.value) == KernelTables(kmap, |kmap|)
                          && |old(pm.free)| == |pm.free| + 1 + |KernelTables(kmap, |kmap|)|
      ensures forall q | q in held :: pm.mem[q] == old(pm.mem)[q]
    {
      ghost var x := Now();
      r := Alloc();
      if r.None? {
        return;
      }
      var d := r.value;
      MakeDir(d);
      OutsideAll(x, d);
      OutsideAdd(x.owner, d, d, Dir);
      var ok := AddRegions(d, kmap, x);
      if !ok {
        Freevm(d);
        return None;
      }
    }

    /** One turn of the loop of `allocuvm`: a fresh zeroed frame at v. A page it could not map stays in hand. */
    method AllocTurn(d: nat, v: nat, ghost x: State, ghost a: nat) returns (m: MapResult, p: Option)
      requires Valid() && d in dirs && a <= v < USER && Grew(x, Now(), d, a, v)
      modifies this`owner, this`held, pm`head, pm`free, pm`mem
      ensures Valid() && Outside(owner, d) == Outside(old(owner), d)
      ensures Grew(x, Now(), d, a, if m.Done? then v + 1 else v)
      ensures m.Done? ==> held == old(held)
      ensures m.Done? ==> View(x, d, v).Absent? && PageTaken(old(Now()), Now(), d, v, |old(pm.free)|, |pm.free|)
      ensures m.NoMem? <==> TooFew(old(Now()), d, v, |old(pm.free)|)
      ensures !m.Done? ==> InHand(old(held), held, p)
      ensures m.Remap? ==> View(x, d, v).Mapped? && old(pm.free) != []
    {
      p := Alloc();
      if p.None? {
        return NoMem, p;
      }
      Fill(p.value, ZeroPage());
      ghost var y := Now();
      assert Tables(y, d) == Tables(old(Now()), d);
      m := Mappage(d, v, p.value, 6);
      GrewNext(x, y, Now(), d, a, v, MappedTo(y, v, p.value, 7), m.Done?);
    }

    /** What `allocuvm` does when memory runs out at page a: take back the pages mapped, and a page in hand. */
    method Rollback(d: nat, oldsz: nat, newsz: nat, p: Option, ghost x: State, ghost a: nat)
      requires Valid() && d in dirs && oldsz <= newsz < KERNBASE && PagesFor(oldsz) <= a <= PagesFor(newsz)
      requires Grew(x, Now(), d, PagesFor(oldsz), a) && (p.Some? ==> p.value in held)
      modifies this`owner, this`held, pm`head, pm`free, pm`mem
      ensures Valid() && Outside(owner, d) == Outside(old(owner), d)
      ensures Cleared(x, Now(), d, PagesFor(oldsz), PagesFor(newsz))
      ensures held == if p.Some? then old(held) - {p.value} else old(held)
    {
      ghost var y := Now();
      var _ := Deallocuvm(d, newsz, oldsz);
      GrewCleared(x, y, Now(), d, PagesFor(oldsz), a, PagesFor(newsz));
      if p.Some? {
        Free(p.value);
      }
    }

    /**
     `allocuvm`: fresh zeroed frames from oldsz up to newsz, or none of them. When it fails for want of memory the stretch
     is empty, all else is as before, and no page is lost. It fails exactly when fewer pages are free than the frames and
     the missing page tables take, up to the first page that is mapped already; if there is one and memory lasts that far,
     it panics there.
     */
    method Allocuvm(d: nat, oldsz: nat, newsz: nat) returns (r: Growth)
      requires Valid() && d in dirs
      modifies this`owner, this`held, pm`head, pm`free, pm`mem
      ensures Valid() && Outside(owner, d) == Outside(old(owner), d)
      ensures newsz >= KERNBASE ==> r == Zero && SameViews(old(Now()), Now())
      ensures newsz < KERNBASE && newsz < oldsz ==> r == Size(oldsz) && SameViews(old(Now()), Now())
      ensures oldsz <= newsz < KERNBASE ==> PagesFor(oldsz) <= PagesFor(newsz) <= USER
      ensures oldsz <= newsz < KERNBASE && r.Size? ==>
                r.n == newsz && Grew(old(Now()), Now(), d, PagesFor(oldsz), PagesFor(newsz))
      ensures oldsz <= newsz < KERNBASE && r.Zero? ==>
                && Cleared(old(Now()), Now(), d, PagesFor(oldsz), PagesFor(newsz))
                && |old(pm.free)| < 2 * (PagesFor(newsz) - PagesFor(oldsz))
      ensures oldsz <= newsz < KERNBASE ==>
                (r.Zero? <==> |old(pm.free)| < AllocPrice(old(Now()), d, PagesFor(oldsz), PagesFor(newsz)))
      ensures oldsz <= newsz < KERNBASE && !r.Zero? ==>
                (r.Panic? <==> First(old(Now()), d, PagesFor(oldsz), PagesFor(newsz), true) < PagesFor(newsz))
      ensures r.Panic? ==> oldsz <= newsz < KERNBASE
      ensures !r.Panic? ==> held == old(held)
    {
      if newsz >= KERNBASE {
        return Zero;
      }
      if newsz < oldsz {
        return Size(oldsz);
      }
      var from, end := PagesFor(oldsz), PagesFor(newsz);
      ghost var x := Now();
      PriceAtMost(x, d, from, end);
      var m, p, a, tables, now := AllocLoop(d, from, end, x);
      match m
      case Remap =>
        AllocEnough(x, d, from, a, end, tables, |old(pm.free)|, now);
        return Panic;
      case NoMem =>
        AllocShort(x, d, from, a, end, tables, |old(pm.free)|, now);
        Rollback(d, oldsz, newsz, p, x, a);
        return Zero;
      case Done =>
        AllocEnough(x, d, from, end, end, tables, |old(pm.free)|, now);
        return Size(newsz);
    }

    /**
     The loop of `allocuvm`, over the pages from `from` up to end: it stops at page a, with p in hand if it could not map
     it. `tables` and `now` are the page tables and the number of free pages there.
     */
    method AllocLoop(d: nat, from: nat, end: nat, ghost x: State)
        returns (m: MapResult, p: Option, a: nat, ghost tables: set<nat>, ghost now: nat)
      requires Valid() && d in dirs && from <= end <= USER && x == Now()
      modifies this`owner, this`held, pm`head, pm`free, pm`mem
      ensures Valid() && Outside(owner, d) == Outside(old(owner), d) && from <= a <= end && Grew(x, Now(), d, from, a)
      ensures AllocPaid(x, d, from, a, tables, |old(pm.free)|, now)
      ensures m.Done? ==> a == end && held == old(held)
      ensures !m.Done? ==> a < end && Stops(x, d, a, m, tables, now)
      ensures !m.Done? ==> InHand(old(held), held, p)
    {
      m, p, a, tables, now := Done, None, from, Tables(Now(), d), |pm.free|;
      while m.Done? && a < end
        invariant from <= a <= end && Valid() && Outside(owner, d) == Outside(old(owner), d) && Grew(x, Now(), d, from, a)
        invariant AllocPaid(x, d, from, a, tables, |old(pm.free)|, now)
        invariant m.Done? ==> held == old(held) && tables == Tables(Now(), d) && now == |pm.free|
        invariant !m.Done? ==> a < end && Stops(x, d, a, m, tables, now) && InHand(old(held), held, p)
        decreases m.Done?, end - a
      {
        m, p := PaidTurn(d, a, x, from, |old(pm.free)|);
        if m.Done? {
          a, tables, now := a + 1, Tables(Now(), d), |pm.free|;
        }
      }
    }

    /** A turn, and what has been taken after it. */
    method PaidTurn(d: nat, v: nat, ghost x: State, ghost a: nat, ghost before: nat)
        returns (m: MapResult, p: Option)
      requires Valid() && d in dirs && a <= v < USER && Grew(x, Now(), d, a, v)
      requires AllocPaid(x, d, a, v, Tables(Now(), d), before, |pm.free|)
      modifies this`owner, this`held, pm`head, pm`free, pm`mem
      ensures Valid() && Outside(owner, d) == Outside(old(owner), d)
      ensures Grew(x, Now(), d, a, if m.Done? then v + 1 else v)
      ensures m.Done? ==> held == old(held) && AllocPaid(x, d, a, v + 1, Tables(Now(), d), before, |pm.free|)
      ensures !m.Done? ==> Stops(x, d, v, m, Tables(old(Now()), d), |old(pm.free)|)
      ensures !m.Done? ==> InHand(old(held), held, p)
    {
      ghost var tables, now := Tables(Now(), d), |pm.free|;
      m, p := AllocTurn(d, v, x, a);
      if m.Done? {
        AllocPaidNext(x, d, a, v, tables, before, now, Tables(Now(), d), |pm.free|);
      }
    }

    /**
     One turn of the loop of `copyuvm`: page v of d is copied to the new address space e. It panics on a page that is not
     there, and on failure has nothing left in hand.
     */
    method CopyTurn(d: nat, e: nat, v: nat, kmap: seq<Region>, ghost x: State) returns (m: MapResult)
      requires Valid() && KernelMap(kmap) && d in x.dirs && v < USER && Copied(x, Now(), d, e, v, kmap)
      modifies this`owner, this`held, pm`head, pm`free, pm`mem
      ensures Valid() && held == old(held) && NewSpace(x, Now(), e)
      ensures m.Done? ==> Copied(x, Now(), d, e, v + 1, kmap) && PageTaken(old(Now()), Now(), e, v, |old(pm.free)|, |pm.free|)
      ensures m.NoMem? ==> View(x, d, v).Mapped? && TooFew(old(Now()), e, v, |old(pm.free)|)
      ensures m.Remap? ==> View(x, d, v).Absent?
    {
      ghost var y := Now();
      assert View(y, d, v) == View(x, d, v);
      var there, f, flags := FindFrame(d, v);
      if !there {
        return Remap;
      }
      KernelAbsentBelow(kmap, |kmap|, v);
      var ok, c := PlaceCopy(e, v, f, flags);
      if ok {
        CopiedNext(x, y, Now(), d, e, v, kmap, c);
        return Done;
      }
      NewSpaceSame(x, y, Now(), e);
      return NoMem;
    }

    /** The frame and the flags of user page v, if it is there. */
    method FindFrame(d: nat, v: nat) returns (there: bool, f: nat, flags: nat)
      requires Valid() && d in dirs && v < USER
      ensures there ==> f in owner && f < |pm.mem| && flags < PGSIZE && flags % 2 == 1
      ensures View(Now(), d, v) == if there then Mapped(f, flags, pm.mem[f]) else Absent
    {
      var t := Walk(d, v);
      if t.None? || !Present(pm.mem[t.value][v % WORDS]) {
        return false, 0, 0;
      }
      var w := pm.mem[t.value][v % WORDS];
      assert FrameOk(Now(), d, v) && PosOk(Now(), Addr(w));
      return true, Addr(w), Flags(w);
    }

    /** A copy of the page f in use, mapped at v. */
    method PlaceCopy(e: nat, v: nat, f: nat, flags: nat) returns (ok: bool, ghost c: Mapping)
      requires Valid() && e in dirs && v < USER && f in owner && flags < PGSIZE && flags % 2 == 1
      requires View(Now(), e, v).Absent?
      modifies this`owner, this`held, pm`head, pm`free, pm`mem
      ensures Valid() && held == old(held) && Outside(owner, e) == Outside(old(owner), e)
      ensures ok ==> OneView(old(Now()), Now(), e, v, c) && PageTaken(old(Now()), Now(), e, v, |old(pm.free)|, |pm.free|)
      ensures ok ==> c.Mapped? && c.flags == flags && c.page == old(pm.mem)[f] && c.frame != f
      ensures !ok ==> SameViews(old(Now()), Now()) && TooFew(old(Now()), e, v, |old(pm.free)|)
    {
      c := Absent;
      assert PosOk(Now(), f);
      var p := Alloc();
      if p.None? {
        return false, c;
      }
      Fill(p.value, pm.mem[f]);
      ghost var z := Now();
      assert Tables(z, e) == Tables(old(Now()), e);
      var m := Mappage(e, v, p.value, flags);
      if m.Done? {
        return true, MappedTo(z, v, p.value, flags);
      }
      Free(p.value);
      return false, c;
    }

    /** A turn, and what has been taken after it: `had` are the page tables at the start of the loop. */
    method PaidCopy(d: nat, e: nat, v: nat, kmap: seq<Region>, ghost x: State, ghost had: set<nat>, ghost budget: nat)
        returns (m: MapResult)
      requires Valid() && KernelMap(kmap) && d in x.dirs && v < USER && Copied(x, Now(), d, e, v, kmap)
      requires Spent(had, 0, v, Tables(Now(), e), budget, |pm.free| + v)
      modifies this`owner, this`held, pm`head, pm`free, pm`mem
      ensures Valid() && held == old(held) && NewSpace(x, Now(), e)
      ensures m.Done? ==> Copied(x, Now(), d, e, v + 1, kmap)
      ensures m.Done? ==> Spent(had, 0, v + 1, Tables(Now(), e), budget, |pm.free| + v + 1)
      ensures m.NoMem? ==> View(x, d, v).Mapped? && TooFew(old(Now()), e, v, |old(pm.free)|)
      ensures m.Remap? ==> View(x, d, v).Absent?
    {
      ghost var tables, free := Tables(Now(), e), |pm.free|;
      m := CopyTurn(d, e, v, kmap, x);
      if m.Done? {
        SpentNext(had, 0, v, tables, Tables(Now(), e), budget, free + v, |pm.free| + v + 1);
      }
    }

    /**
     The loop of `copyuvm`, over the first n pages of d: it stops at page v. `tables` and `free` are the page tables of the
     copy and the number of free pages there.
     */
    method CopyLoop(d: nat, e: nat, n: nat, kmap: seq<Region>, ghost x: State, ghost had: set<nat>, ghost budget: nat)
        returns (m: MapResult, v: nat, ghost tables: set<nat>, ghost free: nat)
      requires Valid() && KernelMap(kmap) && d in x.dirs && n <= USER && Copied(x, Now(), d, e, 0, kmap)
      requires Tables(Now(), e) == had && budget == |pm.free| + |had|
      modifies this`owner, this`held, pm`head, pm`free, pm`mem
      ensures Valid() && held == old(held) && NewSpace(x, Now(), e)
      ensures v <= n && (forall u: nat | u < v :: View(x, d, u).Mapped?) && Spent(had, 0, v, tables, budget, free + v)
      ensures m.Done? ==> v == n && Copied(x, Now(), d, e, n, kmap)
      ensures m.NoMem? ==> v < n && View(x, d, v).Mapped? && free < 1 + if v / WORDS in tables then 0 else 1
      ensures m.Remap? ==> v < n && View(x, d, v).Absent?
    {
      m, v, tables, free := Done, 0, had, |pm.free|;
      while m.Done? && v < n
        invariant v <= n && Valid() && held == old(held) && NewSpace(x, Now(), e)
        invariant (forall u: nat | u < v :: View(x, d, u).Mapped?) && Spent(had, 0, v, tables, budget, free + v)
        invariant m.Done? ==> Copied(x, Now(), d, e, v, kmap) && tables == Tables(Now(), e) && free == |pm.free|
        invariant m.NoMem? ==> v < n && View(x, d, v).Mapped? && free < 1 + if v / WORDS in tables then 0 else 1
        invariant m.Remap? ==> v < n && View(x, d, v).Absent?
        decreases m.Done?, n - v
      {
        m := PaidCopy(d, e, v, kmap, x, had, budget);
        if m.Done? {
          v, tables, free := v + 1, Tables(Now(), e), |pm.free|;
        }
      }
    }

    /**
     `copyuvm`: a new address space with the kernel's mappings and, below sz, the same flags and contents as d on frames of
     its own; or no trace of it. It fails exactly when fewer pages are free than the copy takes, up to the first page below
     sz that is not there; if there is one and memory lasts that far, it panics there.
     */
    method Copyuvm(d: nat, sz: nat, kmap: seq<Region>) returns (r: Copy)
      requires Valid() && KernelMap(kmap) && d in dirs && sz <= KERNBASE
      modifies this`dirs, this`owner, this`held, pm`head, pm`free, pm`mem
      ensures Valid() && held == old(held) && PagesFor(sz) <= USER
      ensures r.NewDir? ==> Copied(old(Now()), Now(), d, r.e, PagesFor(sz), kmap)
      ensures r.Failed? ==> dirs == old(dirs) && owner == old(owner) && SameViews(old(Now()), Now())
      ensures r.Failed? <==> |old(pm.free)| < CopyPrice(kmap, First(old(Now()), d, 0, PagesFor(sz), false))
      ensures !r.Failed? ==> (r.Missing? <==> First(old(Now()), d, 0, PagesFor(sz), false) < PagesFor(sz))
    {
      ghost var x := Now();
      var n := PagesFor(sz);
      var s := Setupkvm(kmap);
      if s.None? {
        return Failed;
      }
      ghost var had := KernelTables(kmap, |kmap|);
      ghost var budget := |pm.free| + |had|;
      var m, v, tables, free := CopyLoop(d, s.value, n, kmap, x, had, budget);
      CopyEnds(x, d, kmap, n, m, v, tables, budget, free);
      match m
      case Remap =>
        return Missing;
      case NoMem =>
        Freevm(s.value);
        return Failed;
      case Done =>
        return NewDir(s.value);
    }
  }
}
