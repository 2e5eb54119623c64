/**
 Directories and paths of fs.c. A directory is a file of 16-byte entries: an inode number of two bytes, 0 when the entry
 is free, and a name of 14 bytes, ended by a NUL if it is shorter.
 */
module Directory {
  import opened Common
  import opened Blocks
  import opened FsDisk
  import opened Fs

  const DIRSIZ := 14
  const ENTRY := 16
  const T_DIR := 1
  const ROOTINO := 1

  // Names.

  /** A C string as its bytes, with a NUL after the last. */
  function At(s: seq<byte>, k: nat): byte {
    if k < |s| then s[k] else 0
  }

  function Length(s: seq<byte>, k: nat): (n: nat)
    requires k <= DIRSIZ && k <= |s|
    ensures k <= n <= DIRSIZ && n <= |s| && (n < DIRSIZ ==> At(s, n) == 0) && forall j | k <= j < n :: s[j] != 0
    decreases DIRSIZ - k
  {
    if k == DIRSIZ || At(s, k) == 0 then k else Length(s, k + 1)
  }

  /** What counts of a name: its bytes before the first NUL, 14 at most. */
  function Key(s: seq<byte>): (key: seq<byte>)
    ensures |key| <= DIRSIZ && key <= s && forall j | 0 <= j < |key| :: key[j] != 0
  {
    s[..Length(s, 0)]
  }

  lemma KeyStarts(s: seq<byte>, k: nat)
    requires k <= DIRSIZ && forall j | 0 <= j < k :: At(s, j) != 0
    ensures k <= |Key(s)| && forall j | 0 <= j < k :: Key(s)[j] == At(s, j)
    ensures k == DIRSIZ || At(s, k) == 0 ==> |Key(s)| == k
    ensures k < DIRSIZ && At(s, k) != 0 ==> |Key(s)| > k && Key(s)[k] == At(s, k)
  {
    var n := |Key(s)|;
    assert n == DIRSIZ || At(s, n) == 0;
  }

  /** Names that agree on k bytes are equal or not by what follows. */
  lemma KeysAgree(s: seq<byte>, t: seq<byte>, k: nat)
    requires k <= DIRSIZ && forall j | 0 <= j < k :: At(s, j) == At(t, j) != 0
    requires k == DIRSIZ || At(s, k) == 0 || At(s, k) != At(t, k)
    ensures Key(s) == Key(t) <==> k == DIRSIZ || At(s, k) == At(t, k)
  {
    KeyStarts(s, k);
    KeyStarts(t, k);
  }

  /** `namecmp`, that is strncmp with 14. */
  method Namecmp(s: seq<byte>, t: seq<byte>) returns (same: bool)
    ensures same <==> Key(s) == Key(t)
  {
    var k := 0;
    while k < DIRSIZ && At(s, k) != 0 && At(s, k) == At(t, k)
      invariant k <= DIRSIZ && forall j | 0 <= j < k :: At(s, j) == At(t, j) != 0
    {
      k := k + 1;
    }
    KeysAgree(s, t, k);
    return k == DIRSIZ || At(s, k) == At(t, k);
  }

  /** The name field that holds a name. */
  function Field(s: seq<byte>): (f: seq<byte>)
    ensures |f| == DIRSIZ
  {
    var key := Key(s);
    key + seq(DIRSIZ - |key|, j => 0)
  }

  lemma FieldKey(s: seq<byte>)
    ensures Key(Field(s)) == Key(s)
  {
    var f := Field(s);
    KeysAgree(f, s, |Key(s)|);
  }

  /** `strncpy` with 14. */
  method Strncpy(t: seq<byte>) returns (s: seq<byte>)
    ensures s == Field(t)
  {
    s := [];
    while |s| < DIRSIZ && At(t, |s|) != 0
      invariant |s| <= |Key(t)| && s == Key(t)[..|s|]
      decreases DIRSIZ - |s|
    {
      s := s + [At(t, |s|)];
    }
    while |s| < DIRSIZ
      invariant |Key(t)| <= |s| <= DIRSIZ && s == Key(t) + seq(|s| - |Key(t)|, j => 0)
      decreases DIRSIZ - |s|
    {
      s := s + [0];
    }
  }

  // Entries.

  function Inum(c: seq<byte>, k: nat): (i: nat)
    requires ENTRY * k + ENTRY <= |c|
    ensures i < 65536
  {
    var lo: nat, hi: nat := c[ENTRY * k], c[ENTRY * k + 1];
    lo + 256 * hi
  }

  function Name(c: seq<byte>, k: nat): seq<byte>
    requires ENTRY * k + ENTRY <= |c|
  {
    c[ENTRY * k + 2..ENTRY * k + ENTRY]
  }

  function Encode(inum: nat, name: seq<byte>): (e: seq<byte>)
    ensures |e| == ENTRY
  {
    [inum % 256, inum / 256 % 256] + Field(name)
  }

  predicate Used(c: seq<byte>, k: nat) {
    ENTRY * k + ENTRY <= |c| && Inum(c, k) != 0
  }

  predicate Matches(c: seq<byte>, k: nat, key: seq<byte>) {
    Used(c, k) && Key(Name(c, k)) == key
  }

  /** Names are unique. */
  ghost predicate Unique(c: seq<byte>) {
    forall k: nat, l: nat | Used(c, k) && Used(c, l) && Key(Name(c, k)) == Key(Name(c, l)) :: k == l
  }

  /** The first n entries as a finite map from names to inode numbers. */
  ghost function BindingsTo(c: seq<byte>, n: nat): map<seq<byte>, nat> {
    if n == 0 then map[]
    else if Used(c, n - 1) then BindingsTo(c, n - 1)[Key(Name(c, n - 1)) := Inum(c, n - 1)]
    else BindingsTo(c, n - 1)
  }

  ghost function Bindings(c: seq<byte>): map<seq<byte>, nat> {
    BindingsTo(c, |c| / ENTRY)
  }

  lemma {:induction false} BoundTo(c: seq<byte>, n: nat, key: seq<byte>, k: nat)
    requires Unique(c) && k < n && Matches(c, k, key)
    ensures key in BindingsTo(c, n) && BindingsTo(c, n)[key] == Inum(c, k)
  {
    if k < n - 1 {
      BoundTo(c, n - 1, key, k);
      assert Used(c, n - 1) ==> Key(Name(c, n - 1)) != key;
    }
  }

  lemma {:induction false} NotBound(c: seq<byte>, n: nat, key: seq<byte>)
    requires forall k: nat | k < n :: !Matches(c, k, key)
    ensures key !in BindingsTo(c, n)
  {
    if n > 0 {
      NotBound(c, n - 1, key);
      assert !Matches(c, n - 1, key);
    }
  }

  /** A name is bound exactly when a used entry has it, and to the number there. */
  lemma BindingsAre(c: seq<byte>, key: seq<byte>)
    requires Unique(c)
    ensures key in Bindings(c) <==> exists k: nat :: Matches(c, k, key)
    ensures forall k: nat | Matches(c, k, key) :: key in Bindings(c) && Bindings(c)[key] == Inum(c, k)
  {
    if k: nat :| Matches(c, k, key) {
      BoundTo(c, |c| / ENTRY, key, k);
    } else {
      NotBound(c, |c| / ENTRY, key);
    }
  }

  // Adding an entry.

  /** The entry written, at the end of the directory or in the middle. */
  lemma EntryWritten(c: seq<byte>, k: nat, inum: nat, name: seq<byte>)
    requires |c| % ENTRY == 0 && ENTRY * k <= |c|
    ensures var e := Overwrite(c, ENTRY * k, Encode(inum, name));
            |e| % ENTRY == 0 && ENTRY * k + ENTRY <= |e| && Inum(e, k) == inum % 65536 && Key(Name(e, k)) == Key(name)
  {
    var n := Encode(inum, name);
    var e := Overwrite(c, ENTRY * k, n);
    assert e[ENTRY * k] == n[0] && e[ENTRY * k + 1] == n[1];
    assert Name(e, k) == Field(name);
    FieldKey(name);
    ShortBytes(inum);
  }

  /** The other entries stay. */
  lemma EntryKept(c: seq<byte>, k: nat, inum: nat, name: seq<byte>, l: nat)
    requires |c| % ENTRY == 0 && ENTRY * k <= |c| && l != k
    ensures var e := Overwrite(c, ENTRY * k, Encode(inum, name));
            && (ENTRY * l + ENTRY <= |e| <==> ENTRY * l + ENTRY <= |c|)
            && (ENTRY * l + ENTRY <= |c| ==> Inum(e, l) == Inum(c, l) && Name(e, l) == Name(c, l))
  {
    var e := Overwrite(c, ENTRY * k, Encode(inum, name));
    if ENTRY * l + ENTRY <= |c| {
      forall p | ENTRY * l <= p < ENTRY * l + ENTRY
        ensures e[p] == c[p]
      {
        OverwriteAt(c, ENTRY * k, Encode(inum, name), p);
      }
    }
  }

  lemma ShortBytes(inum: nat)
    ensures inum % 256 + 256 * (inum / 256 % 256) == inum % 65536
  {
    var q, r := inum / 256, inum % 256;
    assert inum == 65536 * (q / 256) + (256 * (q % 256) + r);
  }

  lemma EntryMatches(c: seq<byte>, k: nat, inum: nat, name: seq<byte>, l: nat, key: seq<byte>)
    requires |c| % ENTRY == 0 && ENTRY * k <= |c|
    ensures var e := Overwrite(c, ENTRY * k, Encode(inum, name));
            && (Matches(e, l, key) <==> if l == k then inum % 65536 != 0 && Key(name) == key else Matches(c, l, key))
            && (Matches(e, l, key) ==> Inum(e, l) == if l == k then inum % 65536 else Inum(c, l))
  {
    if l == k {
      EntryWritten(c, k, inum, name);
    } else {
      EntryKept(c, k, inum, name, l);
    }
  }

  /**
   A new name in a free entry, or behind the last, adds one binding and keeps names unique. The number is stored in 16
   bits: the binding is to inum exactly when 0 < inum < 65536, and none is added for a multiple of 65536.
   */
  lemma LinkBinds(c: seq<byte>, k: nat, inum: nat, name: seq<byte>)
    requires |c| % ENTRY == 0 && ENTRY * k <= |c| && !Used(c, k) && Unique(c)
    requires forall l: nat :: !Matches(c, l, Key(name))
    ensures var e := Overwrite(c, ENTRY * k, Encode(inum, name));
            && Unique(e)
            && Bindings(e) == if inum % 65536 == 0 then Bindings(c) else Bindings(c)[Key(name) := inum % 65536]
  {
    var e := Overwrite(c, ENTRY * k, Encode(inum, name));
    assert Unique(e) by {
      forall l: nat, m: nat | Used(e, l) && Used(e, m) && Key(Name(e, l)) == Key(Name(e, m))
        ensures l == m
      {
        var key := Key(Name(e, l));
        assert Matches(e, l, key) && Matches(e, m, key);
        EntryMatches(c, k, inum, name, l, key);
        EntryMatches(c, k, inum, name, m, key);
      }
    }
    var m := if inum % 65536 == 0 then Bindings(c) else Bindings(c)[Key(name) := inum % 65536];
    forall key
      ensures key in Bindings(e) <==> key in m
      ensures key in m ==> key in Bindings(e) && Bindings(e)[key] == m[key]
    {
      LinkBindsKey(c, k, inum, name, key);
    }
  }

  lemma LinkBindsKey(c: seq<byte>, k: nat, inum: nat, name: seq<byte>, key: seq<byte>)
    requires |c| % ENTRY == 0 && ENTRY * k <= |c| && !Used(c, k) && Unique(c)
    requires forall l: nat :: !Matches(c, l, Key(name))
    requires Unique(Overwrite(c, ENTRY * k, Encode(inum, name)))
    ensures var e := Overwrite(c, ENTRY * k, Encode(inum, name));
            var m := if inum % 65536 == 0 then Bindings(c) else Bindings(c)[Key(name) := inum % 65536];
            (key in Bindings(e) <==> key in m) && (key in m ==> Bindings(e)[key] == m[key])
  {
    var e := Overwrite(c, ENTRY * k, Encode(inum, name));
    BindingsAre(c, key);
    BindingsAre(e, key);
    if l: nat :| Matches(c, l, key) {
      EntryMatches(c, k, inum, name, l, key);
    } else if l: nat :| Matches(e, l, key) {
      EntryMatches(c, k, inum, name, l, key);
    }
    EntryMatches(c, k, inum, name, k, key);
  }

  // dirlookup and dirlink.

  /** The contents of file dp. */
  ghost function Content(x: State, dp: nat): seq<byte>
    requires FilesOk(x) && dp < |x.inodes|
  {
    Bytes(x.inodes[dp], x.data)
  }

  datatype Looked = Hit(inum: nat, k: nat) | Miss | Broken

  /** What a lookup finds: the first entry with the name; or it panics on no directory, or on one that ends in a part of one. */
  ghost predicate Finds(x: State, dp: nat, key: seq<byte>, r: Looked)
    requires FilesOk(x) && dp < |x.inodes|
  {
    var c := Content(x, dp);
    match r
    case Hit(inum, k) =>
      x.inodes[dp].kind == T_DIR && Matches(c, k, key) && inum == Inum(c, k) && forall l: nat | l < k :: !Matches(c, l, key)
    case Miss =>
      x.inodes[dp].kind == T_DIR && |c| % ENTRY == 0 && forall l: nat :: !Matches(c, l, key)
    case Broken =>
      x.inodes[dp].kind != T_DIR || (|c| % ENTRY != 0 && forall l: nat :: !Matches(c, l, key))
  }

  ghost predicate NoneBefore(c: seq<byte>, k: nat, key: seq<byte>) {
    forall l: nat | l < k :: !Matches(c, l, key)
  }

  lemma NoneNext(c: seq<byte>, k: nat, key: seq<byte>)
    requires NoneBefore(c, k, key) && !Matches(c, k, key)
    ensures NoneBefore(c, k + 1, key)
  {
  }

  /** No entry fits behind entry k. */
  lemma NoneAtAll(c: seq<byte>, k: nat, key: seq<byte>)
    requires NoneBefore(c, k, key) && ENTRY * k <= |c| < ENTRY * k + ENTRY
    ensures (forall l: nat :: !Matches(c, l, key)) && (|c| % ENTRY == 0 <==> |c| == ENTRY * k)
  {
  }

  /** In a directory with unique names a lookup is a lookup in the map. */
  lemma LookupIsMap(x: State, dp: nat, key: seq<byte>, r: Looked)
    requires FilesOk(x) && dp < |x.inodes| && Finds(x, dp, key, r) && Unique(Content(x, dp))
    requires x.inodes[dp].kind == T_DIR && |Content(x, dp)| % ENTRY == 0
    ensures var m := Bindings(Content(x, dp));
            if key in m then r.Hit? && r.inum == m[key] else r.Miss?
  {
    BindingsAre(Content(x, dp), key);
  }

  /** Read the entry at off, a multiple of 16; none if the file ends before the entry does. */
  method ReadEntry(fs: FileSystem, dp: nat, k: nat) returns (ok: bool, inum: nat, name: seq<byte>)
    requires fs.Valid() && dp in fs.mem && ENTRY * k < fs.mem[dp].size
    ensures ok <==> ENTRY * k + ENTRY <= fs.mem[dp].size
    ensures ok ==> var c := Content(fs.Whole(), dp); inum == Inum(c, k) && name == Name(c, k)
  {
    var r := fs.Readi(dp, ENTRY * k, ENTRY);
    ghost var c := Content(fs.Whole(), dp);
    match r
    case Bad =>
      assert false;
    case Got(b) =>
      if |b| != ENTRY {
        return false, 0, [];
      }
      assert b == c[ENTRY * k..ENTRY * k + ENTRY];
      var lo: nat, hi: nat := b[0], b[1];
      return true, lo + 256 * hi, b[2..];
  }

  /** `dirlookup`. */
  method Dirlookup(fs: FileSystem, dp: nat, name: seq<byte>) returns (r: Looked)
    requires fs.Valid() && dp in fs.mem
    ensures Finds(fs.Whole(), dp, Key(name), r)
  {
    if fs.mem[dp].kind != T_DIR {
      return Broken;
    }
    ghost var c := Content(fs.Whole(), dp);
    var k := 0;
    while ENTRY * k < fs.mem[dp].size
      invariant NoneBefore(c, k, Key(name))
      invariant ENTRY * k <= |c| == fs.mem[dp].size
      decreases |c| - ENTRY * k
    {
      var ok, inum, field := ReadEntry(fs, dp, k);
      if !ok {
        NoneAtAll(c, k, Key(name));
        return Broken;
      }
      if inum != 0 {
        var same := Namecmp(name, field);
        if same {
          return Hit(inum, k);
        }
      }
      NoneNext(c, k, Key(name));
      k := k + 1;
    }
    NoneAtAll(c, k, Key(name));
    return Miss;
  }

  ghost predicate UsedBefore(c: seq<byte>, k: nat) {
    forall l: nat | l < k :: Used(c, l)
  }

  lemma UsedNext(c: seq<byte>, k: nat)
    requires UsedBefore(c, k) && Used(c, k)
    ensures UsedBefore(c, k + 1)
  {
  }

  /** The search of `dirlink` for a free entry, or for the end. */
  method FreeEntry(fs: FileSystem, dp: nat) returns (ok: bool, k: nat)
    requires fs.Valid() && dp in fs.mem
    ensures var c := Content(fs.Whole(), dp);
            if ok then UsedBefore(c, k) && !Used(c, k) && ENTRY * k <= |c| && (|c| % ENTRY == 0 || ENTRY * k < |c|)
            else |c| % ENTRY != 0
  {
    ghost var c := Content(fs.Whole(), dp);
    k := 0;
    while ENTRY * k < fs.mem[dp].size
      invariant UsedBefore(c, k) && ENTRY * k <= |c| == fs.mem[dp].size
      decreases |c| - ENTRY * k
    {
      var inum, field;
      ok, inum, field := ReadEntry(fs, dp, k);
      if !ok || inum == 0 {
        return;
      }
      UsedNext(c, k);
      k := k + 1;
    }
    ok := true;
  }

  datatype Linked = LinkedAt(k: nat) | Present | LinkPanic

  /** What dirlink does between x and y. */
  ghost predicate Links(x: State, y: State, dp: nat, name: seq<byte>, inum: nat, k: nat)
    requires FilesOk(x) && dp < |x.inodes|
  {
    var c := Content(x, dp);
    && x.inodes[dp].kind == T_DIR && |c| % ENTRY == 0 && ENTRY * k <= |c| && UsedBefore(c, k) && !Used(c, k)
    && (forall l: nat :: !Matches(c, l, Key(name)))
    && WriteDone(x, y, dp, ENTRY * k, Encode(inum, name))
  }

  /**
   The directory has no room for one more entry: all of its entries are in use, and it is as large as a file can be or
   the disk lacks the blocks for it to grow.
   */
  ghost predicate NoRoom(x: State, dp: nat)
    requires FilesOk(x) && dp < |x.inodes|
  {
    var c := Content(x, dp);
    && (forall l: nat | ENTRY * l < |c| :: Used(c, l))
    && (|c| == MAXSIZE || Short(x.bits, |c|, |c| + ENTRY))
  }

  /** Where `dirlink` panics: no directory, or a new name for one that ends in a part of an entry or has no room. */
  ghost predicate CannotLink(x: State, dp: nat, key: seq<byte>)
    requires FilesOk(x) && dp < |x.inodes|
  {
    var c := Content(x, dp);
    || x.inodes[dp].kind != T_DIR
    || ((forall l: nat :: !Matches(c, l, key)) && (|c| % ENTRY != 0 || NoRoom(x, dp)))
  }

  /** `dirlink`. It is refused exactly when the name is there, and panics exactly where there is no way to link. */
  method Dirlink(fs: FileSystem, dp: nat, name: seq<byte>, inum: nat) returns (r: Linked)
    requires fs.Valid() && dp in fs.mem
    modifies fs`mem, fs`owner, fs.vol`blocks, fs.vol`bits, fs.vol`inodes, fs.vol`data, fs.vol`logged
    ensures r.Present? <==> old(fs.mem[dp]).kind == T_DIR && exists k: nat :: Matches(Content(old(fs.Whole()), dp), k, Key(name))
    ensures r.Present? ==> fs.Valid() && fs.Whole() == old(fs.Whole())
    ensures r.LinkedAt? ==> fs.Valid() && Links(old(fs.Whole()), fs.Whole(), dp, name, inum, r.k)
    ensures r.LinkPanic? <==> CannotLink(old(fs.Whole()), dp, Key(name))
    ensures r.Present? ==> fs.vol.logged == old(fs.vol.logged) && fs.vol.blocks == old(fs.vol.blocks)
    ensures r.LinkedAt? ==> |fs.vol.logged| <= |old(fs.vol.logged)| + 5
  {
    var l := Dirlookup(fs, dp, name);
    if l.Hit? {
      return Present;
    } else if l.Broken? {
      return LinkPanic;
    }
    var ok, k := FreeEntry(fs, dp);
    if !ok {
      return LinkPanic;
    }
    RoomIff(fs.Whole(), dp, k);
    var w := WriteEntry(fs, dp, k, inum, name);
    return if w.Done? then LinkedAt(k) else LinkPanic;
  }

  /** The write of an entry to the first free place is refused or lacks blocks exactly when there is no room. */
  lemma RoomIff(x: State, dp: nat, k: nat)
    requires FilesOk(x) && dp < |x.inodes| && |Content(x, dp)| % ENTRY == 0
    requires UsedBefore(Content(x, dp), k) && !Used(Content(x, dp), k) && ENTRY * k <= |Content(x, dp)|
    ensures NoRoom(x, dp) <==> ENTRY * k + ENTRY > MAXSIZE || Short(x.bits, x.inodes[dp].size, ENTRY * k + ENTRY)
  {
    var c := Content(x, dp);
    if ENTRY * k < |c| {
      assert ENTRY * k + ENTRY <= |c| && !Used(c, k);
    } else {
      assert forall l: nat | ENTRY * l < |c| :: Used(c, l);
    }
  }

  /** The write of `dirlink`. */
  method WriteEntry(fs: FileSystem, dp: nat, k: nat, inum: nat, name: seq<byte>) returns (w: Outcome)
    requires fs.Valid() && dp in fs.mem && ENTRY * k <= fs.mem[dp].size
    modifies fs`mem, fs`owner, fs.vol`blocks, fs.vol`bits, fs.vol`inodes, fs.vol`data, fs.vol`logged
    ensures w.Done? ==> fs.Valid() && WriteDone(old(fs.Whole()), fs.Whole(), dp, ENTRY * k, Encode(inum, name))
    ensures w.Failed? <==> ENTRY * k + ENTRY > MAXSIZE
    ensures w.Panic? ==> fs.vol.Valid() && forall b | 0 <= b < fs.vol.sb.size :: fs.vol.bits[b]
    ensures w.Done? <==> !(ENTRY * k + ENTRY > MAXSIZE || Short(old(fs.vol.bits), old(fs.mem[dp]).size, ENTRY * k + ENTRY))
    ensures w.Done? ==> |fs.vol.logged| <= |old(fs.vol.logged)| + 5
  {
    var field := Strncpy(name);
    var lo: byte, hi: byte := inum % 256, inum / 256 % 256;
    var r;
    ghost var bm, ds;
    r, bm, ds := fs.Writei(dp, [lo, hi] + field, ENTRY * k);
    if r.Done? {
      EntryBudget(old(fs.mem[dp]), fs.mem[dp], old(fs.vol.logged), fs.vol.logged, bm, ds, k, IBlock(fs.vol.sb, dp));
    }
    return r;
  }

  /** An entry lies in one block: with two bitmap blocks, the indirect block and the inode's block that makes five. */
  lemma EntryBudget(d: Dinode, e: Dinode, before: set<nat>, logged: set<nat>, bm: set<nat>, ds: set<nat>, k: nat, ib: nat)
    requires |d.addrs| == NDIRECT + 1 && |e.addrs| == NDIRECT + 1 && ENTRY * k <= d.size
    requires logged <= before + bm + ds + Indirect(e) + {ib} && |ds| <= Touched(ENTRY * k, ENTRY)
    requires e.size == Max(d.size, ENTRY * k + ENTRY)
    requires |bm| <= BlocksFor(e.size) - BlocksFor(d.size) + |Indirect(e) - Indirect(d)|
    ensures |logged| <= |before| + 5
  {
    EntryBlocks(k, d.size);
    SubsetCard(logged, before + bm + ds + Indirect(e) + {ib});
    SubsetCard(Indirect(e) - Indirect(d), Indirect(e));
    assert |Indirect(e)| <= 1;
    assert |before + bm + ds + Indirect(e) + {ib}| <= |before| + |bm| + |ds| + |Indirect(e)| + 1;
  }

  lemma EntryBlocks(k: nat, size: nat)
    requires ENTRY * k <= size
    ensures Touched(ENTRY * k, ENTRY) == 1 && BlocksFor(Max(size, ENTRY * k + ENTRY)) - BlocksFor(size) <= 1
  {
  }

  /** A successful dirlink adds the one binding and keeps names unique, and no other file changes. */
  lemma DirlinkBinds(x: State, y: State, dp: nat, name: seq<byte>, inum: nat, k: nat)
    requires FilesOk(x) && dp < |x.inodes| && Links(x, y, dp, name, inum, k) && Unique(Content(x, dp))
    ensures FilesOk(y) && |y.inodes| == |x.inodes| && Unique(Content(y, dp)) && |Content(y, dp)| % ENTRY == 0
    ensures Bindings(Content(y, dp)) == if inum % 65536 == 0 then Bindings(Content(x, dp))
                                        else Bindings(Content(x, dp))[Key(name) := inum % 65536]
    ensures Bindings(Content(y, dp)) == Bindings(Content(x, dp))[Key(name) := inum] <==> 0 < inum < 65536
    ensures forall j | 0 <= j < |x.inodes| && j != dp :: Content(y, j) == Content(x, j)
  {
    var c, e := Content(x, dp), Content(y, dp);
    LinkBinds(c, k, inum, name);
    BindingsAre(c, Key(name));
    EntryWritten(c, k, inum, name);
    ShortIff(Bindings(c), Key(name), inum);
  }

  /** The bytes of the entry that dirlink writes: the number, lower byte first, and the name up to a NUL, padded with NULs. */
  lemma EntryBytes(x: State, y: State, dp: nat, name: seq<byte>, inum: nat, k: nat)
    requires FilesOk(x) && dp < |x.inodes| && Links(x, y, dp, name, inum, k)
    ensures FilesOk(y) && |y.inodes| == |x.inodes| && ENTRY * k + ENTRY <= |Content(y, dp)|
    ensures var c, p := Content(y, dp), ENTRY * k;
            && c[p] == inum % 256 && c[p + 1] == inum / 256 % 256
            && forall j | 0 <= j < DIRSIZ :: c[p + 2 + j] == if j < |Key(name)| then name[j] else 0
  {
    var c, n := Content(x, dp), Encode(inum, name);
    EntryWritten(c, k, inum, name);
    var e := Overwrite(c, ENTRY * k, n);
    assert forall j | 0 <= j < ENTRY :: e[ENTRY * k + j] == n[j];
    assert forall j | 0 <= j < DIRSIZ :: n[2 + j] == Field(name)[j];
  }

  lemma ShortIff(m: map<seq<byte>, nat>, key: seq<byte>, inum: nat)
    requires key !in m
    ensures (if inum % 65536 == 0 then m else m[key := inum % 65536]) == m[key := inum] <==> 0 < inum < 65536
  {
    var e := if inum % 65536 == 0 then m else m[key := inum % 65536];
    assert e == m[key := inum] ==> e[key] == inum;
  }
}
