/** What several modules share: the constants of param.h and a few stock definitions. */
module Common {

  /** Blocks one file system operation may log, blocks the log can list, and buffers of the cache. */
  const MAXOPBLOCKS: nat := 10
  const LOGSIZE: nat := MAXOPBLOCKS * 3
  const NBUF: nat := MAXOPBLOCKS * 3

  /** Unsigned integers have 32 bits. */
  const UINT: nat := 0x1_0000_0000

  /** The first virtual address of the kernel. */
  const KERNBASE: nat := 0x8000_0000

  datatype Option = None | Some(value: nat)

  ghost predicate Distinct(s: seq<nat>) {
    forall i, j | 0 <= i < j < |s| :: s[i] != s[j]
  }

  function Pow2(k: nat): (n: nat)
    ensures n >= 1
  {
    if k == 0 then 1 else 2 * Pow2(k - 1)
  }

  lemma {:induction false} Pow2Sum(a: nat, b: nat)
    ensures Pow2(a + b) == Pow2(a) * Pow2(b)
    decreases b
  {
    if b > 0 {
      Pow2Sum(a, b - 1);
    }
  }

  /** The numbers from lo up to, not including, hi. */
  ghost function Interval(lo: nat, hi: nat): (r: set<nat>)
    ensures forall x: nat :: x in r <==> lo <= x < hi
    ensures |r| == if lo < hi then hi - lo else 0
    decreases hi
  {
    if hi <= lo then {} else Interval(lo, hi - 1) + {hi - 1}
  }

  lemma {:induction false} SubsetCard(a: set<nat>, b: set<nat>)
    requires a <= b
    ensures |a| <= |b|
  {
    if a != {} {
      var x :| x in a;
      SubsetCard(a - {x}, b - {x});
    }
  }
}
