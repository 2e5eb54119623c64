/** The pipe of pipe.c: a ring of bytes with 32-bit counters that wrap, shared by any number of readers and writers. */
module Pipe {
  import opened Common

  // The class `Ring` is the code of one lock-holding stretch of pipewrite and piperead: from acquiring the pipe lock, or
  // waking in `sleep`, to sleeping or releasing it. It is proved against the functions `WriteStretch` and `ReadStretch` on
  // the buffered bytes. The step system then interleaves these stretches, and the closing of the two ends, over any
  // number of threads.

  const PIPESIZE: nat := 512

  type Byte = nat

  // ------------------------------------------------------------------ one stretch, on the buffered bytes

  /** How a stretch ends: the call returns, or the thread sleeps. */
  datatype Outcome = Done(result: int) | Sleep

  /** The bytes buffered after a stretch, the bytes it moved, and how it ended. */
  datatype Stretch = Stretch(buffered: seq<Byte>, moved: seq<Byte>, end: Outcome)

  function Min(a: nat, b: nat): (m: nat) {
    if a < b then a else b
  }

  /** A writer at byte i of `addr` stores what fits; if bytes remain it gives up or sleeps. */
  function WriteStretch(buffered: seq<Byte>, addr: seq<Byte>, i: nat, stop: bool): (s: Stretch)
    requires i <= |addr| && |buffered| <= PIPESIZE
    ensures s.buffered == buffered + s.moved && |s.buffered| <= PIPESIZE
  {
    var m := Min(PIPESIZE - |buffered|, |addr| - i);
    Stretch(buffered + addr[i..i + m], addr[i..i + m],
            if i + m == |addr| then Done(|addr|) else if stop then Done(-1) else Sleep)
  }

  /** A reader takes up to n bytes; on an empty pipe with the write end open it gives up or sleeps. */
  function ReadStretch(buffered: seq<Byte>, n: nat, writeOpen: bool, killed: bool): (s: Stretch)
    ensures buffered == s.moved + s.buffered
  {
    if buffered == [] && writeOpen then Stretch(buffered, [], if killed then Done(-1) else Sleep)
    else
      var m := Min(n, |buffered|);
      Stretch(buffered[m..], buffered[..m], Done(m))
  }

  // ------------------------------------------------------------------ the code of a stretch

  /** The place in the ring of the byte numbered n + k. */
  function Slot(n: nat, k: nat): (i: nat)
    ensures i < PIPESIZE
  {
    (n + k) % PIPESIZE
  }

  ghost predicate Holds(data: seq<Byte>, nread: nat, buffered: seq<Byte>) {
    && |data| == PIPESIZE && |buffered| <= PIPESIZE
    && forall k | 0 <= k < |buffered| :: data[Slot(nread, k)] == buffered[k]
  }

  lemma SlotsApart(n: nat, i: nat, k: nat)
    requires i < k < PIPESIZE
    ensures Slot(n, i) != Slot(n, k)
  {
  }

  lemma WrapSlot(n: nat, k: nat)
    ensures ((n + k) % UINT) % PIPESIZE == Slot(n, k)
  {
    var x, q := n + k, (n + k) / UINT;
    assert x == PIPESIZE * (8388608 * q) + x % UINT;
  }

  /** Storing at the wrapped write counter appends, because UINT is a multiple of PIPESIZE. */
  lemma PutKeeps(data: seq<Byte>, nread: nat, buffered: seq<Byte>, b: Byte)
    requires nread < UINT && Holds(data, nread, buffered) && |buffered| < PIPESIZE
    ensures ((nread + |buffered|) % UINT) % PIPESIZE == Slot(nread, |buffered|)
    ensures Holds(data[Slot(nread, |buffered|) := b], nread, buffered + [b])
  {
    WrapSlot(nread, |buffered|);
    var i := Slot(nread, |buffered|);
    forall k | 0 <= k < |buffered|
      ensures Slot(nread, k) != i
    {
      SlotsApart(nread, k, |buffered|);
    }
    assert Holds(data[i := b], nread, buffered + [b]);
  }

  /** Stepping the wrapped read counter drops the first byte. */
  lemma TakeKeeps(data: seq<Byte>, nread: nat, buffered: seq<Byte>)
    requires nread < UINT && Holds(data, nread, buffered) && buffered != []
    ensures data[nread % PIPESIZE] == buffered[0]
    ensures Holds(data, (nread + 1) % UINT, buffered[1..])
  {
    assert data[Slot(nread, 0)] == buffered[0];
    forall k | 0 <= k < |buffered| - 1
      ensures data[Slot((nread + 1) % UINT, k)] == buffered[1..][k]
    {
      WrapSlot(nread, 1);
      assert Slot((nread + 1) % UINT, k) == Slot(nread, k + 1);
    }
  }

  lemma WrapNext(x: nat)
    ensures (x % UINT + 1) % UINT == (x + 1) % UINT
  {
  }

  lemma WrapSkip(x: nat, n: nat)
    requires n >= 1
    ensures ((x + 1) % UINT + (n - 1)) % UINT == (x + n) % UINT
  {
  }

  class Ring {
    const data: array<Byte>
    var nread: nat
    var nwrite: nat
    ghost var buffered: seq<Byte>

    /** The buffered bytes lie in the ring from nread on; both counters are uints. */
    ghost predicate Valid()
      reads this, data
    {
      && data.Length == PIPESIZE && nread < UINT && nwrite < UINT
      && nwrite == (nread + |buffered|) % UINT
      && Holds(data[..], nread, buffered)
    }

    constructor ()
      ensures Valid() && buffered == [] && fresh(data)
    {
      data := new Byte[PIPESIZE];
      nread, nwrite, buffered := 0, 0, [];
    }

    /** The test at the head of the writer's loop, in uint arithmetic. */
    predicate Full()
      reads this
    {
      nwrite == (nread + PIPESIZE) % UINT
    }

    lemma FullIff()
      requires Valid()
      ensures Full() <==> |buffered| == PIPESIZE
      ensures nread == nwrite <==> buffered == []
    {
    }

    /** `p->data[p->nwrite++ % PIPESIZE] = b` */
    method Put(b: Byte)
      requires Valid() && |buffered| < PIPESIZE
      modifies this`nwrite, this`buffered, data
      ensures Valid() && buffered == old(buffered) + [b]
    {
      PutKeeps(data[..], nread, buffered, b);
      data[nwrite % PIPESIZE] := b;
      WrapNext(nread + |buffered|);
      nwrite := (nwrite + 1) % UINT;
      buffered := buffered + [b];
    }

    /** `p->data[p->nread++ % PIPESIZE]` */
    method Take() returns (b: Byte)
      requires Valid() && buffered != []
      modifies this`nread, this`buffered
      ensures Valid() && b == old(buffered)[0] && buffered == old(buffered)[1..]
    {
      TakeKeeps(data[..], nread, buffered);
      b := data[nread % PIPESIZE];
      WrapSkip(nread, |buffered|);
      nread := (nread + 1) % UINT;
      buffered := buffered[1..];
    }

    /** pipewrite from byte i on: the bytes of addr in order, until all are stored or the ring is full. */
    method WriteHere(addr: seq<Byte>, i: nat, stop: bool) returns (j: nat, end: Outcome)
      requires Valid() && i <= |addr|
      modifies this, data
      ensures Valid() && i <= j <= |addr| && buffered == old(buffered) + addr[i..j]
      ensures j == |addr| ==> end == Done(|addr|)
      ensures j < |addr| ==> |buffered| == PIPESIZE && end == if stop then Done(-1) else Sleep
      ensures var s := WriteStretch(old(buffered), addr, i, stop);
              buffered == s.buffered && end == s.end && j == i + |s.moved|
    {
      j := i;
      while j < |addr|
        invariant Valid() && i <= j <= |addr|
        invariant buffered == old(buffered) + addr[i..j]
      {
        FullIff();
        if Full() {
          return j, if stop then Done(-1) else Sleep;
        }
        Put(addr[j]);
        assert addr[i..j + 1] == addr[i..j] + [addr[j]];
        j := j + 1;
      }
      end := Done(|addr|);
    }

    /** piperead: up to n bytes, as many as there are; it sleeps or gives up on an empty pipe that may still fill. */
    method ReadHere(n: nat, writeOpen: bool, killed: bool) returns (out: seq<Byte>, end: Outcome)
      requires Valid()
      modifies this
      ensures Valid() && |out| <= n && |out| <= |old(buffered)|
      ensures out == old(buffered)[..|out|] && buffered == old(buffered)[|out|..]
      ensures old(buffered) == [] && writeOpen ==> end == if killed then Done(-1) else Sleep
      ensures old(buffered) != [] || !writeOpen ==> end == Done(|out|) && (|out| == n || buffered == [])
      ensures var s := ReadStretch(old(buffered), n, writeOpen, killed);
              buffered == s.buffered && out == s.moved && end == s.end
    {
      FullIff();
      if nread == nwrite && writeOpen {
        return [], if killed then Done(-1) else Sleep;
      }
      out := [];
      var i := 0;
      while i < n
        invariant Valid() && 0 <= i <= n && i <= |old(buffered)|
        invariant out == old(buffered)[..i] && buffered == old(buffered)[i..]
      {
        FullIff();
        if nread == nwrite {
          break;
        }
        var b := Take();
        out := out + [b];
        i := i + 1;
      }
      end := Done(i);
    }
  }

  // ------------------------------------------------------------------ all interleavings

  datatype Pc =
    | Idle
    | Writer(call: nat, addr: seq<Byte>, i: nat) | WriterAsleep(call: nat, addr: seq<Byte>, i: nat)
    | Reader(n: nat) | ReaderAsleep(n: nat)

  /** A call of pipewrite and what it has returned, if it has. */
  datatype Write = Write(addr: seq<Byte>, status: Status)

  datatype Status = Running | Returned(n: int)

  /** A call of piperead that has returned: how many bytes it asked for, what it got and what it returned. */
  datatype Read = Read(n: nat, got: seq<Byte>, result: int)

  /**
   `written` and `taken` are the bytes stored and removed so far, in order, and `from` tells for each byte stored which
   call of pipewrite stored it.
   */
  datatype State = State(
    buffered: seq<Byte>, readOpen: bool, writeOpen: bool, ts: seq<Pc>, written: seq<Byte>, taken: seq<Byte>,
    from: seq<nat>, puts: seq<Write>, gets: seq<Read>)

  datatype Event =
    | StartWrite(t: nat, addr: seq<Byte>)
    | StartRead(t: nat, n: nat)
    | RunWrite(t: nat, killed: bool)
    | RunRead(t: nat, killed: bool)
    | CloseWrite
    | CloseRead
    | WakeByKill(t: nat)

  function WakeReaders(ts: seq<Pc>): (r: seq<Pc>)
    ensures |r| == |ts|
    ensures forall i | 0 <= i < |ts| :: r[i] == if ts[i].ReaderAsleep? then Reader(ts[i].n) else ts[i]
  {
    seq(|ts|, i requires 0 <= i < |ts| => if ts[i].ReaderAsleep? then Reader(ts[i].n) else ts[i])
  }

  function WakeWriters(ts: seq<Pc>): (r: seq<Pc>)
    ensures |r| == |ts|
    ensures forall i | 0 <= i < |ts| :: r[i] == if ts[i].WriterAsleep? then Writer(ts[i].call, ts[i].addr, ts[i].i) else ts[i]
  {
    seq(|ts|, i requires 0 <= i < |ts| => if ts[i].WriterAsleep? then Writer(ts[i].call, ts[i].addr, ts[i].i) else ts[i])
  }

  /** Counters of writers stay inside their data; the ring holds at most PIPESIZE bytes. */
  ghost predicate Sane(s: State) {
    && |s.buffered| <= PIPESIZE
    && forall t | 0 <= t < |s.ts| && Writes(s.ts[t]) :: s.ts[t].i <= |s.ts[t].addr| && s.ts[t].call < |s.puts|
  }

  predicate Writes(p: Pc) {
    p.Writer? || p.WriterAsleep?
  }

  ghost predicate Enabled(s: State, e: Event) {
    match e
    case StartWrite(t, _) => t < |s.ts| && s.ts[t].Idle?
    case StartRead(t, _) => t < |s.ts| && s.ts[t].Idle?
    case RunWrite(t, _) => t < |s.ts| && s.ts[t].Writer?
    case RunRead(t, _) => t < |s.ts| && s.ts[t].Reader?
    case CloseWrite => s.writeOpen
    case CloseRead => s.readOpen
    case WakeByKill(t) => t < |s.ts| && (s.ts[t].ReaderAsleep? || s.ts[t].WriterAsleep?)
  }

  function Next(s: State, e: Event): (r: State)
    requires Sane(s) && Enabled(s, e)
  {
    match e
    case StartWrite(t, addr) => s.(ts := s.ts[t := Writer(|s.puts|, addr, 0)], puts := s.puts + [Write(addr, Running)])
    case StartRead(t, n) => s.(ts := s.ts[t := Reader(n)])
    case RunWrite(t, killed) =>
      var p := s.ts[t];
      var w := WriteStretch(s.buffered, p.addr, p.i, !s.readOpen || killed);
      var ts :=
        match w.end
        case Done(r) => if r == -1 then s.ts[t := Idle] else WakeReaders(s.ts[t := Idle])
        case Sleep => WakeReaders(s.ts)[t := WriterAsleep(p.call, p.addr, p.i + |w.moved|)];
      s.(buffered := w.buffered, ts := ts, written := s.written + w.moved, from := s.from + seq(|w.moved|, _ => p.call),
         puts := if w.end.Done? then s.puts[p.call := Write(p.addr, Returned(w.end.result))] else s.puts)
    case RunRead(t, killed) =>
      var w := ReadStretch(s.buffered, s.ts[t].n, s.writeOpen, killed);
      var ts :=
        match w.end
        case Done(r) => if r == -1 then s.ts[t := Idle] else WakeWriters(s.ts[t := Idle])
        case Sleep => s.ts[t := ReaderAsleep(s.ts[t].n)];
      s.(buffered := w.buffered, ts := ts, taken := s.taken + w.moved,
         gets := if w.end.Done? then s.gets + [Read(s.ts[t].n, w.moved, w.end.result)] else s.gets)
    case CloseWrite => s.(writeOpen := false, ts := WakeReaders(s.ts))
    case CloseRead => s.(readOpen := false, ts := WakeWriters(s.ts))
    case WakeByKill(t) =>
      var p := s.ts[t];
      s.(ts := s.ts[t := if p.ReaderAsleep? then Reader(p.n) else Writer(p.call, p.addr, p.i)])
  }

  /** Nothing is lost, duplicated or reordered: what was written is what was taken, then what is buffered. */
  ghost predicate Fifo(s: State) {
    Sane(s) && s.written == s.taken + s.buffered
  }

  /** Nobody sleeps without reason. */
  ghost predicate SleepOk(s: State) {
    forall t | 0 <= t < |s.ts| ::
      && (s.ts[t].ReaderAsleep? ==> s.buffered == [] && s.writeOpen)
      && (s.ts[t].WriterAsleep? ==> |s.buffered| == PIPESIZE && s.readOpen)
  }

  // ------------------------------------------------------------------ what each call stores and gets

  /** Of these bytes, those that call c stored. */
  ghost function Part(bytes: seq<Byte>, from: seq<nat>, c: nat): (r: seq<Byte>)
    requires |from| == |bytes|
  {
    if bytes == [] then []
    else
      var n := |bytes| - 1;
      Part(bytes[..n], from[..n], c) + if from[n] == c then [bytes[n]] else []
  }

  lemma {:induction false} PartAppend(bytes: seq<Byte>, from: seq<nat>, more: seq<Byte>, d: nat, c: nat)
    requires |from| == |bytes|
    ensures Part(bytes + more, from + seq(|more|, _ => d), c) == Part(bytes, from, c) + if c == d then more else []
    decreases |more|
  {
    var all, tags := bytes + more, from + seq(|more|, _ => d);
    if more == [] {
      assert all == bytes && tags == from;
    } else {
      var n := |more| - 1;
      PartAppend(bytes, from, more[..n], d, c);
      assert all[..|all| - 1] == bytes + more[..n] && tags[..|all| - 1] == from + seq(n, _ => d);
      assert more == more[..n] + [more[n]];
    }
  }

  /**
   What call c has stored is a first part of its bytes. If it has returned, then their number, and all of them are
   stored; or -1, and some are not.
   */
  ghost predicate WriteOk(s: State, c: nat)
    requires c < |s.puts| && |s.from| == |s.written|
  {
    var w, part := s.puts[c], Part(s.written, s.from, c);
    && part <= w.addr
    && (w.status.Returned? ==> w.status.n == if part == w.addr then |w.addr| else -1)
  }

  /** The thread is in a call of its own that has not returned, and has stored the first i bytes. */
  ghost predicate WriterOk(s: State, t: nat)
    requires t < |s.ts| && |s.from| == |s.written|
  {
    Writes(s.ts[t]) ==>
      var p := s.ts[t];
      && p.call < |s.puts| && s.puts[p.call] == Write(p.addr, Running) && p.i <= |p.addr|
      && Part(s.written, s.from, p.call) == p.addr[..p.i]
      && forall u | 0 <= u < |s.ts| && u != t && Writes(s.ts[u]) :: s.ts[u].call != p.call
  }

  /** A read that returned a number got that many bytes, and not more than it asked for; one that gave up got none. */
  ghost predicate ReadOk(r: Read) {
    if r.result == -1 then r.got == [] else r.result == |r.got| <= r.n
  }

  ghost function Got(gets: seq<Read>): (r: seq<Byte>) {
    if gets == [] then [] else Got(gets[..|gets| - 1]) + gets[|gets| - 1].got
  }

  ghost predicate Calls(s: State) {
    && |s.from| == |s.written| && (forall k | 0 <= k < |s.from| :: s.from[k] < |s.puts|)
    && (forall c | 0 <= c < |s.puts| :: WriteOk(s, c)) && (forall t | 0 <= t < |s.ts| :: WriterOk(s, t))
    && s.taken == Got(s.gets) && forall r | r in s.gets :: ReadOk(r)
  }

  lemma {:induction false} PartNone(bytes: seq<Byte>, from: seq<nat>, c: nat)
    requires |from| == |bytes| && c !in from
    ensures Part(bytes, from, c) == []
  {
    if bytes != [] {
      var n := |bytes| - 1;
      assert c !in from[..n];
      PartNone(bytes[..n], from[..n], c);
    }
  }

  lemma StartKeeps(s: State, e: Event)
    requires Calls(s) && Sane(s) && Enabled(s, e) && e.StartWrite?
    ensures Calls(Next(s, e))
  {
    var r, c := Next(s, e), |s.puts|;
    PartNone(s.written, s.from, c);
    forall d | 0 <= d < |r.puts|
      ensures WriteOk(r, d)
    {
      assert d < c ==> WriteOk(s, d);
    }
    forall u | 0 <= u < |r.ts|
      ensures WriterOk(r, u)
    {
      assert WriterOk(s, u);
    }
  }

  /** r is s after thread t has stored the bytes of its call up to j, and has returned or sleeps. */
  ghost predicate Stored(s: State, r: State, t: nat, j: nat, status: Status)
    requires t < |s.ts| && Writes(s.ts[t]) && s.ts[t].call < |s.puts|
  {
    var p := s.ts[t];
    && p.i <= j <= |p.addr| && r.written == s.written + p.addr[p.i..j] && r.from == s.from + seq(j - p.i, _ => p.call)
    && r.puts == s.puts[p.call := Write(p.addr, status)] && r.taken == s.taken && r.gets == s.gets && |r.ts| == |s.ts|
    && r.ts[t] == (if status.Running? then WriterAsleep(p.call, p.addr, j) else Idle)
    && (forall u | 0 <= u < |s.ts| && u != t :: r.ts[u] == if s.ts[u].ReaderAsleep? then r.ts[u] else s.ts[u])
    && (forall u | 0 <= u < |s.ts| && u != t && s.ts[u].ReaderAsleep? :: !Writes(r.ts[u]))
    && (status.Returned? ==> status.n == if j == |p.addr| then |p.addr| else -1)
  }

  lemma RunWriteStores(s: State, e: Event) returns (j: nat, status: Status)
    requires Calls(s) && Sane(s) && Enabled(s, e) && e.RunWrite?
    ensures Stored(s, Next(s, e), e.t, j, status)
  {
    var p := s.ts[e.t];
    assert WriterOk(s, e.t);
    var w := WriteStretch(s.buffered, p.addr, p.i, !s.readOpen || e.killed);
    j, status := p.i + |w.moved|, if w.end.Done? then Returned(w.end.result) else Running;
  }

  lemma StoredParts(s: State, r: State, t: nat, j: nat, status: Status, c: nat)
    requires Calls(s) && t < |s.ts| && Writes(s.ts[t]) && s.ts[t].call < |s.puts| && Stored(s, r, t, j, status)
    ensures |r.from| == |r.written|
    ensures Part(r.written, r.from, c) == if c == s.ts[t].call then s.ts[t].addr[..j] else Part(s.written, s.from, c)
  {
    var p := s.ts[t];
    PartAppend(s.written, s.from, p.addr[p.i..j], p.call, c);
    assert WriterOk(s, t);
    assert p.addr[..p.i] + p.addr[p.i..j] == p.addr[..j];
  }

  lemma WriteKeeps(s: State, e: Event)
    requires Calls(s) && Sane(s) && Enabled(s, e) && e.RunWrite?
    ensures Calls(Next(s, e))
  {
    var r := Next(s, e);
    var j, status := RunWriteStores(s, e);
    StoredKeeps(s, r, e.t, j, status);
  }

  lemma StoredKeeps(s: State, r: State, t: nat, j: nat, status: Status)
    requires Calls(s) && t < |s.ts| && Writes(s.ts[t]) && s.ts[t].call < |s.puts| && Stored(s, r, t, j, status)
    ensures Calls(r)
  {
    assert WriterOk(s, t);
    forall c | 0 <= c < |r.puts|
      ensures WriteOk(r, c)
    {
      assert WriteOk(s, c);
      StoredParts(s, r, t, j, status, c);
    }
    forall u | 0 <= u < |r.ts|
      ensures WriterOk(r, u)
    {
      assert WriterOk(s, u);
      if Writes(s.ts[u]) {
        StoredParts(s, r, t, j, status, s.ts[u].call);
      }
    }
  }

  lemma ReadKeeps(s: State, e: Event)
    requires Calls(s) && Sane(s) && Enabled(s, e) && e.RunRead?
    ensures Calls(Next(s, e))
  {
    var r := Next(s, e);
    if r.gets != s.gets {
      assert r.gets[..|s.gets|] == s.gets;
    }
    OnlyThreads(s, r);
  }

  /** Steps that change threads other than by a write keep what the calls have stored. */
  lemma OnlyThreads(s: State, r: State)
    requires Calls(s) && r.written == s.written && r.from == s.from && r.puts == s.puts && |r.ts| == |s.ts|
    requires forall u | 0 <= u < |s.ts| && Writes(r.ts[u]) ::
               Writes(s.ts[u]) && r.ts[u].call == s.ts[u].call && r.ts[u].addr == s.ts[u].addr && r.ts[u].i == s.ts[u].i
    ensures forall c | 0 <= c < |r.puts| :: WriteOk(r, c)
    ensures forall t | 0 <= t < |r.ts| :: WriterOk(r, t)
  {
    forall c | 0 <= c < |r.puts|
      ensures WriteOk(r, c)
    {
      assert WriteOk(s, c);
    }
    forall t | 0 <= t < |r.ts|
      ensures WriterOk(r, t)
    {
      assert WriterOk(s, t);
    }
  }

  /** Every step keeps what each call has stored or got. */
  lemma StepKeepsCalls(s: State, e: Event)
    requires Calls(s) && Sane(s) && Enabled(s, e)
    ensures Calls(Next(s, e))
  {
    match e {
      case StartWrite(_, _) => StartKeeps(s, e);
      case RunWrite(_, _) => WriteKeeps(s, e);
      case RunRead(_, _) => ReadKeeps(s, e);
      case _ => OnlyThreads(s, Next(s, e));
    }
  }

  ghost predicate ReaderSleeps(s: State) {
    exists t :: 0 <= t < |s.ts| && s.ts[t].ReaderAsleep?
  }

  /** A writer that has stored bytes returns -1 from the full pipe, and so calls no wakeup. */
  ghost predicate Abandons(s: State, e: Event)
    requires Sane(s) && Enabled(s, e)
  {
    && e.RunWrite?
    && (!s.readOpen || e.killed)
    && |s.buffered| < PIPESIZE < |s.buffered| + |s.ts[e.t].addr| - s.ts[e.t].i
  }

  lemma StepIsSane(s: State, e: Event)
    requires Sane(s) && Enabled(s, e)
    ensures Sane(Next(s, e))
  {
  }

  /** Every step of every thread keeps the order of bytes, killed or not. */
  lemma StepIsFifo(s: State, e: Event)
    requires Fifo(s) && Enabled(s, e)
    ensures Fifo(Next(s, e))
  {
    StepIsSane(s, e);
    match e {
      case RunWrite(t, killed) =>
        var p := s.ts[t];
        var w := WriteStretch(s.buffered, p.addr, p.i, !s.readOpen || killed);
        assert s.written + w.moved == s.taken + (s.buffered + w.moved);
      case RunRead(t, killed) =>
        var w := ReadStretch(s.buffered, s.ts[t].n, s.writeOpen, killed);
        assert s.taken + (w.moved + w.buffered) == (s.taken + w.moved) + w.buffered;
      case _ =>
    }
  }

  /** A step keeps the sleepers justified if and only if it does not abandon bytes to a sleeping reader. */
  lemma StepKeepsSleepersIff(s: State, e: Event)
    requires Fifo(s) && SleepOk(s) && Enabled(s, e)
    ensures SleepOk(Next(s, e)) <==> !(Abandons(s, e) && ReaderSleeps(s))
  {
    if Abandons(s, e) {
      AbandonStores(s, e);
      if t :| 0 <= t < |s.ts| && s.ts[t].ReaderAsleep? {
        assert Next(s, e).ts[t].ReaderAsleep?;
      }
    }
  }

  lemma AbandonStores(s: State, e: Event)
    requires Fifo(s) && SleepOk(s) && Enabled(s, e) && Abandons(s, e)
    ensures Next(s, e).ts == s.ts[e.t := Idle] && |Next(s, e).buffered| == PIPESIZE
  {
  }

  ghost predicate Init(s: State) {
    s.buffered == s.written == s.taken == [] && s.from == [] && s.puts == [] && s.gets == [] && s.readOpen && s.writeOpen
    && forall t | 0 <= t < |s.ts| :: s.ts[t] == Idle
  }

  /** A run from s to r; `careful` runs never abandon bytes to a sleeping reader. */
  ghost predicate Runs(s: State, es: seq<Event>, r: State, careful: bool)
    decreases |es|
  {
    if es == [] then r == s
    else
      && Sane(s) && Enabled(s, es[0]) && (careful ==> !(Abandons(s, es[0]) && ReaderSleeps(s)))
      && Runs(Next(s, es[0]), es[1..], r, careful)
  }

  lemma {:induction false} RunKeeps(s: State, es: seq<Event>, r: State, careful: bool)
    requires Fifo(s) && (careful ==> SleepOk(s)) && Runs(s, es, r, careful)
    ensures Fifo(r) && (careful ==> SleepOk(r))
    decreases |es|
  {
    if es != [] {
      StepIsFifo(s, es[0]);
      if careful {
        StepKeepsSleepersIff(s, es[0]);
      }
      RunKeeps(Next(s, es[0]), es[1..], r, careful);
    }
  }

  /** Over every run, the bytes read are a prefix of the bytes written, and at most PIPESIZE are in between. */
  lemma ReadsArePrefixOfWrites(s: State, es: seq<Event>, r: State)
    requires Init(s) && Runs(s, es, r, false)
    ensures r.taken <= r.written
    ensures |r.written| - |r.taken| == |r.buffered| <= PIPESIZE
  {
    RunKeeps(s, es, r, false);
  }

  lemma {:induction false} RunKeepsCalls(s: State, es: seq<Event>, r: State, careful: bool)
    requires Calls(s) && Runs(s, es, r, careful)
    ensures Calls(r)
    decreases |es|
  {
    if es != [] {
      StepKeepsCalls(s, es[0]);
      RunKeepsCalls(Next(s, es[0]), es[1..], r, careful);
    }
  }

  /**
   Over every run, what a write call has stored over all its stretches is exactly the first i bytes of its data, where i
   is how far it has come. If it has returned, that is all of them and it returned their number, or not all and it
   returned -1.
   */
  lemma WritesStoreTheirBytes(s: State, es: seq<Event>, r: State, c: nat)
    requires Init(s) && Runs(s, es, r, false) && c < |r.puts|
    ensures |r.from| == |r.written| && Part(r.written, r.from, c) <= r.puts[c].addr
    ensures forall t | 0 <= t < |r.ts| && Writes(r.ts[t]) && r.ts[t].call == c ::
              r.ts[t].i <= |r.puts[c].addr| && Part(r.written, r.from, c) == r.puts[c].addr[..r.ts[t].i]
    ensures r.puts[c].status.Returned? ==> var n := r.puts[c].status.n;
              && (n == |r.puts[c].addr| <==> Part(r.written, r.from, c) == r.puts[c].addr)
              && (n != |r.puts[c].addr| ==> n == -1)
  {
    RunKeepsCalls(s, es, r, false);
    assert WriteOk(r, c);
    forall t | 0 <= t < |r.ts| && Writes(r.ts[t]) && r.ts[t].call == c
      ensures r.ts[t].i <= |r.puts[c].addr| && Part(r.written, r.from, c) == r.puts[c].addr[..r.ts[t].i]
    {
      assert WriterOk(r, t);
    }
  }

  /** Over every run, the reads that returned got the bytes taken, each the number it returned and at most what it asked. */
  lemma ReadsGetWhatTheyReturn(s: State, es: seq<Event>, r: State, k: nat)
    requires Init(s) && Runs(s, es, r, false) && k < |r.gets|
    ensures r.taken == Got(r.gets)
    ensures var g := r.gets[k]; if g.result == -1 then g.got == [] else g.result == |g.got| <= g.n
  {
    RunKeepsCalls(s, es, r, false);
    assert ReadOk(r.gets[k]);
  }

  /**
   Over every careful run, a sleeping reader means an empty pipe with the write end open, and a sleeping writer
   means a full pipe with the read end open.
   */
  lemma SleepersAreJustified(s: State, es: seq<Event>, r: State)
    requires Init(s) && Runs(s, es, r, true)
    ensures SleepOk(r)
  {
    RunKeeps(s, es, r, true);
  }

  /** Care is needed: a reader sleeps, and a killed writer of 513 bytes fills the pipe and leaves it asleep. */
  lemma AbandonedReaderStaysAsleep() returns (s: State, es: seq<Event>, r: State)
    ensures Init(s) && Runs(s, es, r, false)
    ensures |r.ts| == 2 && r.ts[0].ReaderAsleep? && |r.buffered| == PIPESIZE
  {
    var data := seq(PIPESIZE + 1, _ => 7);
    s := State([], true, true, [Idle, Idle], [], [], [], [], []);
    var e0, e1, e2, e3 := StartRead(0, 1), RunRead(0, false), StartWrite(1, data), RunWrite(1, true);
    var s1 := Next(s, e0);
    var s2 := Next(s1, e1);
    var s3 := Next(s2, e2);
    assert s3.ts == [ReaderAsleep(1), Writer(0, data, 0)];
    r := Next(s3, e3);
    AbandonStores(s3, e3);
    es := [e0, e1, e2, e3];
    assert Runs(r, [], r, false);
    assert Runs(s3, [e3], r, false);
    assert [e2, e3][1..] == [e3];
    assert Runs(s2, [e2, e3], r, false);
    assert [e1, e2, e3][1..] == [e2, e3];
    assert Runs(s1, [e1, e2, e3], r, false);
    assert es[1..] == [e1, e2, e3];
  }
}
