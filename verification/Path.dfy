/** Path names of fs.c: skipelem and namex, against a fold of lookups over the components of the path. */
module Path {
  import opened Common
  import opened Blocks
  import opened FsDisk
  import opened Fs
  import opened Directory

  const SLASH: byte := 47

  // Components.

  /** The pieces between slashes. */
  function Split(s: seq<byte>): (r: seq<seq<byte>>)
    ensures |r| >= 1
  {
    if s == [] then [[]]
    else
      var r := Split(s[1..]);
      if s[0] == SLASH then [[]] + r else [[s[0]] + r[0]] + r[1..]
  }

  function NonEmpty(r: seq<seq<byte>>): seq<seq<byte>> {
    if r == [] then [] else if r[0] == [] then NonEmpty(r[1..]) else [r[0]] + NonEmpty(r[1..])
  }

  /** The components of a path: its nonempty pieces. */
  function Components(s: seq<byte>): seq<seq<byte>> {
    NonEmpty(Split(s))
  }

  lemma SlashFirst(s: seq<byte>)
    requires s != [] && s[0] == SLASH
    ensures Components(s) == Components(s[1..])
  {
    assert ([[]] + Split(s[1..]))[1..] == Split(s[1..]);
  }

  /** s starts with an element of n bytes. */
  predicate StartsWith(s: seq<byte>, n: nat) {
    n <= |s| && (forall j | 0 <= j < n :: s[j] != SLASH) && (n == |s| || s[n] == SLASH)
  }

  lemma {:induction false} SplitFirst(s: seq<byte>, n: nat)
    requires StartsWith(s, n)
    ensures Split(s)[0] == s[..n]
    ensures Split(s)[1..] == if n == |s| then [] else Split(s[n + 1..])
  {
    if n > 0 {
      SplitFirst(s[1..], n - 1);
      assert n == |s| || s[1..][n..] == s[n + 1..];
      assert [s[0]] + s[1..][..n - 1] == s[..n];
    }
  }

  lemma ElementFirst(s: seq<byte>, n: nat)
    requires StartsWith(s, n) && n > 0
    ensures Components(s) == [s[..n]] + Components(s[n..])
  {
    SplitFirst(s, n);
    if n < |s| {
      SlashFirst(s[n..]);
      assert s[n..][1..] == s[n + 1..];
    }
  }

  // skipelem.

  /** What skipelem leaves in the name buffer, for an element e. */
  ghost predicate Holds14(buf: seq<byte>, e: seq<byte>) {
    |buf| == DIRSIZ && if |e| >= DIRSIZ then buf == e[..DIRSIZ] else buf[..|e|] == e && buf[|e|] == 0
  }

  lemma HoldsKey(buf: seq<byte>, e: seq<byte>)
    requires Holds14(buf, e) && forall j | 0 <= j < |e| :: e[j] != 0
    ensures Key(buf) == Key(e)
  {
    var k := if |e| >= DIRSIZ then DIRSIZ else |e|;
    assert forall j | 0 <= j < k :: At(buf, j) == At(e, j);
    KeysAgree(buf, e, k);
  }

  predicate CString(s: seq<byte>) {
    forall j | 0 <= j < |s| :: s[j] != 0
  }

  method SkipSlashes(path: seq<byte>, p: nat) returns (q: nat)
    requires p <= |path|
    ensures p <= q <= |path| && (q == |path| || path[q] != SLASH)
    ensures Components(path[q..]) == Components(path[p..])
  {
    q := p;
    while At(path, q) == SLASH
      invariant p <= q <= |path| && Components(path[q..]) == Components(path[p..])
      decreases |path| - q
    {
      SlashFirst(path[q..]);
      assert path[q..][1..] == path[q + 1..];
      q := q + 1;
    }
  }

  /** The end of the element at s. */
  method ScanElement(path: seq<byte>, s: nat) returns (q: nat)
    requires s < |path| && path[s] != SLASH && CString(path)
    ensures s < q <= |path| && Components(path[s..]) == [path[s..q]] + Components(path[q..])
  {
    q := s;
    while At(path, q) != SLASH && At(path, q) != 0
      invariant s <= q <= |path| && forall j | s <= j < q :: path[j] != SLASH
      decreases |path| - q
    {
      q := q + 1;
    }
    var t := path[s..];
    ElementFirst(t, q - s);
    assert t[..q - s] == path[s..q] && t[q - s..] == path[q..];
  }

  /** `skipelem` from position p of a path: it fails exactly when no component is left. */
  method Skipelem(path: seq<byte>, p: nat, buf: seq<byte>) returns (ok: bool, q: nat, name: seq<byte>)
    requires p <= |path| && CString(path) && |buf| == DIRSIZ
    ensures |name| == DIRSIZ && p <= q <= |path|
    ensures ok <==> Components(path[p..]) != []
    ensures ok ==> && p < q && Components(path[q..]) == Components(path[p..])[1..]
                   && Key(name) == Key(Components(path[p..])[0])
                   && (q == |path| <==> Components(path[q..]) == [])
  {
    var s := SkipSlashes(path, p);
    if At(path, s) == 0 {
      assert path[s..] == [];
      return false, s, buf;
    }
    q := ScanElement(path, s);
    var e, len := path[s..q], q - s;
    name := if len >= DIRSIZ then e[..DIRSIZ] else e + [0] + buf[len + 1..];
    HoldsKey(name, e);
    q := SkipSlashes(path, q);
    NoneLeft(path[q..]);
    return true, q, name;
  }

  /** A path that does not start with a slash has a component, unless it is empty. */
  lemma NoneLeft(s: seq<byte>)
    requires s == [] || s[0] != SLASH
    ensures Components(s) == [] <==> s == []
  {
  }

  // Walking a path.

  /** The lookup of a name in a directory with contents c, from entry k on. */
  ghost function Look(c: seq<byte>, key: seq<byte>, k: nat): Looked
    decreases |c| - ENTRY * k
  {
    if ENTRY * k + ENTRY > |c| then (if |c| % ENTRY == 0 then Miss else Broken)
    else if Matches(c, k, key) then Hit(Inum(c, k), k)
    else Look(c, key, k + 1)
  }

  lemma {:induction false} LookHit(c: seq<byte>, key: seq<byte>, k: nat, h: nat)
    requires k <= h && Matches(c, h, key) && NoneBefore(c, h, key)
    ensures Look(c, key, k) == Hit(Inum(c, h), h)
    decreases h - k
  {
    if k < h {
      LookHit(c, key, k + 1, h);
    }
  }

  lemma {:induction false} LookNone(c: seq<byte>, key: seq<byte>, k: nat)
    requires forall l: nat :: !Matches(c, l, key)
    ensures Look(c, key, k) == if |c| % ENTRY == 0 then Miss else Broken
    decreases |c| - ENTRY * k
  {
    if ENTRY * k + ENTRY <= |c| {
      LookNone(c, key, k + 1);
    }
  }

  lemma FindsLook(x: State, dp: nat, key: seq<byte>, r: Looked)
    requires FilesOk(x) && dp < |x.inodes| && x.inodes[dp].kind == T_DIR && Finds(x, dp, key, r)
    ensures r == Look(Content(x, dp), key, 0)
  {
    if r.Hit? {
      LookHit(Content(x, dp), key, 0, r.k);
    } else {
      LookNone(Content(x, dp), key, 0);
    }
  }

  datatype Where = Found(i: nat) | Missing | Wrecked

  /** A free inode, or a number outside the table: ilock panics. */
  ghost predicate Unlockable(x: State, i: nat) {
    i >= |x.inodes| || x.inodes[i].kind == 0
  }

  /** One step: the inode that a name in directory i stands for. */
  ghost function Step(x: State, i: nat, e: seq<byte>): Where
    requires FilesOk(x)
  {
    if Unlockable(x, i) then Wrecked
    else if x.inodes[i].kind != T_DIR then Missing
    else match Look(Content(x, i), Key(e), 0)
      case Hit(n, _) => Found(n)
      case Miss => Missing
      case Broken => Wrecked
  }

  /** The inode a list of names leads to from i. */
  ghost function Walk(x: State, i: nat, names: seq<seq<byte>>): Where
    requires FilesOk(x)
    decreases |names|
  {
    if names == [] then Found(i)
    else match Step(x, i, names[0])
      case Found(n) => Walk(x, n, names[1..])
      case Missing => Missing
      case Wrecked => Wrecked
  }

  /** The directory that the last name of the list is in. */
  ghost function WalkParent(x: State, i: nat, names: seq<seq<byte>>): Where
    requires FilesOk(x)
  {
    if names == [] then Missing
    else
      match Walk(x, i, names[..|names| - 1])
      case Found(n) => if Unlockable(x, n) then Wrecked else if x.inodes[n].kind != T_DIR then Missing else Found(n)
      case Missing => Missing
      case Wrecked => Wrecked
  }

  /** The walk to the parent and one step more is the walk. */
  lemma {:induction false} ParentThenLast(x: State, i: nat, names: seq<seq<byte>>)
    requires FilesOk(x) && names != []
    ensures Walk(x, i, names) == match WalkParent(x, i, names)
                                 case Found(n) => Step(x, n, names[|names| - 1])
                                 case Missing => Missing
                                 case Wrecked => Wrecked
    decreases |names|
  {
    if |names| > 1 {
      assert names[1..][..|names| - 2] == names[..|names| - 1][1..];
      if Step(x, i, names[0]).Found? {
        ParentThenLast(x, Step(x, i, names[0]).i, names[1..]);
      }
    } else {
      assert names[1..] == [] && names[..0] == [];
    }
  }

  ghost function Target(x: State, i: nat, names: seq<seq<byte>>, parent: bool): Where
    requires FilesOk(x)
  {
    if parent then WalkParent(x, i, names) else Walk(x, i, names)
  }

  /** One step on the way, except that the walk to the parent stops before the last name. */
  lemma TargetStep(x: State, i: nat, names: seq<seq<byte>>, parent: bool)
    requires FilesOk(x) && names != []
    ensures Unlockable(x, i) ==> Target(x, i, names, parent) == Wrecked
    ensures !Unlockable(x, i) && x.inodes[i].kind != T_DIR ==> Target(x, i, names, parent) == Missing
    ensures !Unlockable(x, i) && x.inodes[i].kind == T_DIR && parent && |names| == 1 ==>
              Target(x, i, names, parent) == Found(i)
    ensures !Unlockable(x, i) && x.inodes[i].kind == T_DIR && !(parent && |names| == 1) ==>
              Target(x, i, names, parent) == match Step(x, i, names[0])
                                             case Found(n) => Target(x, n, names[1..], parent)
                                             case Missing => Missing
                                             case Wrecked => Wrecked
  {
    var last := |names| - 1;
    if last > 0 {
      assert names[..last][1..] == names[1..][..last - 1] && names[..last][0] == names[0];
    } else {
      assert names[..last] == [];
    }
  }

  // Paths as a fold of finite maps.

  /** Every directory has whole entries and unique names. */
  ghost predicate DirsOk(x: State)
    requires FilesOk(x)
  {
    forall i: nat | i < |x.inodes| && x.inodes[i].kind == T_DIR :: |Content(x, i)| % ENTRY == 0 && Unique(Content(x, i))
  }

  /** What the names in each directory stand for. */
  ghost function Dirs(x: State): (m: map<nat, map<seq<byte>, nat>>)
    requires FilesOk(x)
  {
    map i: nat | i < |x.inodes| && x.inodes[i].kind == T_DIR :: Bindings(Content(x, i))
  }

  ghost function InUse(x: State): (s: set<nat>) {
    set i: nat | i < |x.inodes| && x.inodes[i].kind != 0
  }

  ghost function Keys(names: seq<seq<byte>>): (r: seq<seq<byte>>)
    ensures |r| == |names| && forall j | 0 <= j < |names| :: r[j] == Key(names[j])
  {
    seq(|names|, j requires 0 <= j < |names| => Key(names[j]))
  }

  /** Where the names lead from i, each looked up in the map of the directory that the names before it have led to. */
  ghost function Follow(dirs: map<nat, map<seq<byte>, nat>>, used: set<nat>, i: nat, keys: seq<seq<byte>>): (r: Where)
    decreases |keys|
  {
    if keys == [] then Found(i)
    else if i !in used then Wrecked
    else if i in dirs && keys[0] in dirs[i] then Follow(dirs, used, dirs[i][keys[0]], keys[1..])
    else Missing
  }

  /** The directory that all names but the last lead to. */
  ghost function FollowParent(dirs: map<nat, map<seq<byte>, nat>>, used: set<nat>, i: nat, keys: seq<seq<byte>>): (r: Where) {
    if keys == [] then Missing
    else
      var w := Follow(dirs, used, i, keys[..|keys| - 1]);
      if w.Found? && w.i !in used then Wrecked else if w.Found? && w.i !in dirs then Missing else w
  }

  /** In a directory of whole entries with unique names one step is a lookup in its map. */
  lemma StepIsMap(x: State, i: nat, e: seq<byte>)
    requires FilesOk(x) && i < |x.inodes| && x.inodes[i].kind == T_DIR
    requires |Content(x, i)| % ENTRY == 0 && Unique(Content(x, i))
    ensures var m := Bindings(Content(x, i)); Step(x, i, e) == if Key(e) in m then Found(m[Key(e)]) else Missing
  {
    var c := Content(x, i);
    BindingsAre(c, Key(e));
    if k: nat :| Matches(c, k, Key(e)) {
      assert NoneBefore(c, k, Key(e));
      LookHit(c, Key(e), 0, k);
    } else {
      LookNone(c, Key(e), 0);
    }
  }

  /** The walk is the fold of these maps over the names. */
  lemma {:induction false} WalkIsFold(x: State, i: nat, names: seq<seq<byte>>)
    requires FilesOk(x) && DirsOk(x)
    ensures Walk(x, i, names) == Follow(Dirs(x), InUse(x), i, Keys(names))
    decreases |names|
  {
    if names != [] {
      assert Keys(names)[1..] == Keys(names[1..]);
      if i in Dirs(x) {
        StepIsMap(x, i, names[0]);
        if Step(x, i, names[0]).Found? {
          WalkIsFold(x, Step(x, i, names[0]).i, names[1..]);
        }
      }
    }
  }

  /** So is the walk to the parent, over all names but the last, to a directory. */
  lemma ParentIsFold(x: State, i: nat, names: seq<seq<byte>>)
    requires FilesOk(x) && DirsOk(x)
    ensures WalkParent(x, i, names) == FollowParent(Dirs(x), InUse(x), i, Keys(names))
  {
    if names != [] {
      WalkIsFold(x, i, names[..|names| - 1]);
      assert Keys(names[..|names| - 1]) == Keys(names)[..|names| - 1];
    }
  }

  ghost function Bind(dirs: map<nat, map<seq<byte>, nat>>, dp: nat, key: seq<byte>, inum: nat)
      : (r: map<nat, map<seq<byte>, nat>>)
    requires dp in dirs
  {
    var m: map<seq<byte>, nat> := dirs[dp][key := inum];
    dirs[dp := m]
  }

  /** A link of a name to an inode number, in the maps. */
  lemma LinkInDirs(x: State, y: State, dp: nat, name: seq<byte>, inum: nat, k: nat)
    requires FilesOk(x) && DirsOk(x) && dp < |x.inodes| && Links(x, y, dp, name, inum, k) && 0 < inum < 65536
    ensures FilesOk(y) && DirsOk(y) && InUse(y) == InUse(x) && dp in Dirs(x) && Key(name) !in Dirs(x)[dp]
    ensures Dirs(y) == Bind(Dirs(x), dp, Key(name), inum)
  {
    DirlinkBinds(x, y, dp, name, inum, k);
    BindingsAre(Content(x, dp), Key(name));
    DirsFrom(x, y, dp, Key(name), inum);
  }

  lemma DirsFrom(x: State, y: State, dp: nat, key: seq<byte>, inum: nat)
    requires FilesOk(x) && FilesOk(y) && |y.inodes| == |x.inodes| && dp in Dirs(x)
    requires forall i | 0 <= i < |x.inodes| :: y.inodes[i].kind == x.inodes[i].kind
    requires forall i | 0 <= i < |x.inodes| && i != dp :: Content(y, i) == Content(x, i)
    requires Bindings(Content(y, dp)) == Bindings(Content(x, dp))[key := inum]
    ensures InUse(y) == InUse(x) && Dirs(y) == Bind(Dirs(x), dp, key, inum)
  {
    var a, b := Dirs(y), Bind(Dirs(x), dp, key, inum);
    assert a.Keys == b.Keys;
    forall i | i in a
      ensures a[i] == b[i]
    {
      assert i != dp ==> Content(y, i) == Content(x, i);
    }
  }

  /** More names lead where they led before. */
  lemma {:induction false} FollowMore(dirs: map<nat, map<seq<byte>, nat>>, used: set<nat>, dp: nat, key: seq<byte>,
                                      inum: nat, i: nat, keys: seq<seq<byte>>)
    requires dp in dirs && key !in dirs[dp] && Follow(dirs, used, i, keys).Found?
    ensures Follow(Bind(dirs, dp, key, inum), used, i, keys) == Follow(dirs, used, i, keys)
    decreases |keys|
  {
    if keys != [] {
      FollowMore(dirs, used, dp, key, inum, dirs[i][keys[0]], keys[1..]);
    }
  }

  lemma {:induction false} FollowLast(dirs: map<nat, map<seq<byte>, nat>>, used: set<nat>, i: nat, keys: seq<seq<byte>>,
                                      key: seq<byte>)
    requires var w := Follow(dirs, used, i, keys); w.Found? && w.i in used && w.i in dirs && key in dirs[w.i]
    ensures Follow(dirs, used, i, keys + [key]) == Found(dirs[Follow(dirs, used, i, keys).i][key])
    decreases |keys|
  {
    if keys == [] {
      assert (keys + [key])[1..] == [];
    } else {
      assert (keys + [key])[1..] == keys[1..] + [key];
      FollowLast(dirs, used, dirs[i][keys[0]], keys[1..], key);
    }
  }

  lemma FollowLinked(dirs: map<nat, map<seq<byte>, nat>>, used: set<nat>, dp: nat, key: seq<byte>, inum: nat, i: nat,
                     keys: seq<seq<byte>>)
    requires dp in dirs && dp in used && key !in dirs[dp] && Follow(dirs, used, i, keys) == Found(dp)
    ensures Follow(Bind(dirs, dp, key, inum), used, i, keys + [key]) == Found(inum)
  {
    FollowMore(dirs, used, dp, key, inum, i, keys);
    FollowLast(Bind(dirs, dp, key, inum), used, i, keys, key);
  }

  /** After a link of a name to an inode number, every path that led somewhere leads there still. */
  lemma LinkKeepsWalks(x: State, y: State, dp: nat, name: seq<byte>, inum: nat, k: nat, i: nat, names: seq<seq<byte>>)
    requires FilesOk(x) && DirsOk(x) && dp < |x.inodes| && Links(x, y, dp, name, inum, k) && 0 < inum < 65536
    requires Walk(x, i, names).Found?
    ensures FilesOk(y) && Walk(y, i, names) == Walk(x, i, names)
  {
    LinkInDirs(x, y, dp, name, inum, k);
    WalkIsFold(x, i, names);
    WalkIsFold(y, i, names);
    FollowMore(Dirs(x), InUse(x), dp, Key(name), inum, i, Keys(names));
  }

  /** A path to the directory leads, with the name behind it, to that inode. */
  lemma LinkThenWalk(x: State, y: State, dp: nat, name: seq<byte>, inum: nat, k: nat, i: nat, names: seq<seq<byte>>)
    requires FilesOk(x) && DirsOk(x) && dp < |x.inodes| && Links(x, y, dp, name, inum, k) && 0 < inum < 65536
    requires Walk(x, i, names) == Found(dp)
    ensures FilesOk(y) && Walk(y, i, names + [name]) == Found(inum)
  {
    LinkInDirs(x, y, dp, name, inum, k);
    WalkIsFold(x, i, names);
    WalkIsFold(y, i, names + [name]);
    assert Keys(names + [name]) == Keys(names) + [Key(name)];
    FollowLinked(Dirs(x), InUse(x), dp, Key(name), inum, i, Keys(names));
  }

  /** The lock and the type check of one turn of `namex`. */
  method Enter(fs: FileSystem, ip: nat) returns (r: Where)
    requires fs.Valid()
    modifies fs`mem, fs`cached
    ensures fs.Whole() == old(fs.Whole())
    ensures Unlockable(fs.Whole(), ip) ==> r == Wrecked
    ensures !Unlockable(fs.Whole(), ip) ==>
              fs.Valid() && r == if fs.Whole().inodes[ip].kind == T_DIR then Found(ip) else Missing
    ensures r.Found? ==> ip in fs.mem
  {
    if ip >= fs.vol.sb.ninodes {
      return Wrecked;
    }
    var ok := fs.Ilock(ip);
    if !ok {
      return Wrecked;
    }
    return if fs.mem[ip].kind == T_DIR then Found(ip) else Missing;
  }

  /** The lookup of one turn of `namex`, in a directory. */
  method Descend(fs: FileSystem, ip: nat, name: seq<byte>, ghost e: seq<byte>) returns (r: Where)
    requires fs.Valid() && ip in fs.mem && fs.mem[ip].kind == T_DIR && Key(name) == Key(e)
    ensures r == Step(fs.Whole(), ip, e)
  {
    var l := Dirlookup(fs, ip, name);
    FindsLook(fs.Whole(), ip, Key(name), l);
    match l
    case Hit(n, _) =>
      return Found(n);
    case Miss =>
      return Missing;
    case Broken =>
      return Wrecked;
  }

  ghost predicate SameLast(a: seq<seq<byte>>, b: seq<seq<byte>>) {
    a != [] ==> b != [] && a[|a| - 1] == b[|b| - 1]
  }

  /**
   `namex`: the walk over the components of the path from the root or from cwd, to the inode or to its parent. It reads
   inodes into memory and changes nothing else. For the parent, `name` holds the last component.
   */
  method Namex(fs: FileSystem, path: seq<byte>, parent: bool, cwd: nat, buf: seq<byte>) returns (r: Where, name: seq<byte>)
    requires fs.Valid() && CString(path) && |buf| == DIRSIZ
    modifies fs`mem, fs`cached
    ensures fs.Whole() == old(fs.Whole()) && (!r.Wrecked? ==> fs.Valid())
    ensures r == Target(old(fs.Whole()), if At(path, 0) == SLASH then ROOTINO else cwd, Components(path), parent)
    ensures parent && r.Found? ==> var names := Components(path); names != [] && Key(name) == Key(names[|names| - 1])
  {
    ghost var x := fs.Whole();
    var ip: nat := if At(path, 0) == SLASH then ROOTINO else cwd;
    ghost var start, names, all := ip, Components(path), Components(path);
    name := buf;
    var p, ok := 0, true;
    assert path[0..] == path;
    while true
      invariant p <= |path| && |name| == DIRSIZ && fs.Valid() && fs.Whole() == x
      invariant names == Components(path[p..]) && SameLast(names, all)
      invariant Target(x, ip, names, parent) == Target(x, start, all, parent)
      decreases |path| - p
    {
      ok, p, name := Skipelem(path, p, name);
      if !ok {
        break;
      }
      TargetStep(x, ip, names, parent);
      r := Enter(fs, ip);
      if !r.Found? || (parent && p == |path|) {
        return;
      }
      r := Descend(fs, ip, name, names[0]);
      if !r.Found? {
        return;
      }
      ip, names := r.i, names[1..];
    }
    r := if parent then Missing else Found(ip);
  }

  /** `namei`: with directories in order, the fold of their maps over the components. */
  method Namei(fs: FileSystem, path: seq<byte>, cwd: nat, buf: seq<byte>) returns (r: Where)
    requires fs.Valid() && CString(path) && |buf| == DIRSIZ
    modifies fs`mem, fs`cached
    ensures fs.Whole() == old(fs.Whole()) && (!r.Wrecked? ==> fs.Valid())
    ensures var x := old(fs.Whole());
            DirsOk(x) ==>
              r == Follow(Dirs(x), InUse(x), if At(path, 0) == SLASH then ROOTINO else cwd, Keys(Components(path)))
  {
    if DirsOk(fs.Whole()) {
      WalkIsFold(fs.Whole(), if At(path, 0) == SLASH then ROOTINO else cwd, Components(path));
    }
    var name;
    r, name := Namex(fs, path, false, cwd, buf);
  }

  /** `nameiparent`: the directory that all components but the last lead to, and the name of the last. */
  method Nameiparent(fs: FileSystem, path: seq<byte>, cwd: nat, buf: seq<byte>) returns (r: Where, name: seq<byte>)
    requires fs.Valid() && CString(path) && |buf| == DIRSIZ
    modifies fs`mem, fs`cached
    ensures fs.Whole() == old(fs.Whole()) && (!r.Wrecked? ==> fs.Valid())
    ensures var x := old(fs.Whole());
            DirsOk(x) ==>
              r == FollowParent(Dirs(x), InUse(x), if At(path, 0) == SLASH then ROOTINO else cwd, Keys(Components(path)))
    ensures r.Found? ==> var keys := Keys(Components(path)); keys != [] && Key(name) == keys[|keys| - 1]
  {
    if DirsOk(fs.Whole()) {
      ParentIsFold(fs.Whole(), if At(path, 0) == SLASH then ROOTINO else cwd, Components(path));
    }
    r, name := Namex(fs, path, true, cwd, buf);
  }
}
