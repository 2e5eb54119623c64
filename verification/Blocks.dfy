/** Disk blocks: sequences of bytes, read and written as little-endian unsigned integers of four bytes. */
module Blocks {
  import opened Common

  const BSIZE := 512

  type byte = x: int | 0 <= x < 256
  type Block = seq<byte>

  function Word(x: Block, k: nat): (w: nat)
    requires 4 * k + 4 <= |x|
    ensures w < UINT
  {
    var b0: nat, b1: nat, b2: nat, b3: nat := x[4 * k], x[4 * k + 1], x[4 * k + 2], x[4 * k + 3];
    b0 + 256 * b1 + 65536 * b2 + 16777216 * b3
  }

  function SetWord(x: Block, k: nat, w: nat): (y: Block)
    requires 4 * k + 4 <= |x| && w < UINT
    ensures |y| == |x|
  {
    x[4 * k := w % 256][4 * k + 1 := w / 256 % 256][4 * k + 2 := w / 65536 % 256][4 * k + 3 := w / 16777216]
  }

  lemma BytesOfWord(w: nat)
    requires w < UINT
    ensures w == w % 256 + 256 * (w / 256 % 256) + 65536 * (w / 65536 % 256) + 16777216 * (w / 16777216)
  {
    assert w / 65536 == w / 256 / 256;
    assert w / 16777216 == w / 65536 / 256;
  }

  /** The byte order on disk: the lowest byte of a word comes first, and no other byte changes. */
  lemma SetWordBytes(x: Block, k: nat, w: nat, j: nat)
    requires 4 * k + 4 <= |x| && w < UINT && j < |x|
    ensures SetWord(x, k, w)[j] == if j / 4 == k then w / Pow2(8 * (j % 4)) % 256 else x[j]
  {
    assert Pow2(8) == 256;
    Pow2Sum(8, 8);
    Pow2Sum(16, 8);
    assert w / 16777216 == w / 16777216 % 256;
  }

  /** So a word is the sum of its bytes, each times 256 more than the one before it. */
  lemma WordIs(x: Block, k: nat)
    requires 4 * k + 4 <= |x|
    ensures Word(x, k) == x[4 * k] + Pow2(8) * x[4 * k + 1] + Pow2(16) * x[4 * k + 2] + Pow2(24) * x[4 * k + 3]
  {
    assert Pow2(8) == 256;
    Pow2Sum(8, 8);
    Pow2Sum(16, 8);
  }

  lemma SetWordWord(x: Block, k: nat, w: nat, j: nat)
    requires 4 * k + 4 <= |x| && w < UINT && 4 * j + 4 <= |x|
    ensures Word(SetWord(x, k, w), j) == if j == k then w else Word(x, j)
  {
    BytesOfWord(w);
  }

  /** The first n of the words w written from word k on. */
  function PutWords(x: Block, k: nat, w: seq<nat>, n: nat): (y: Block)
    requires n <= |w| && 4 * (k + n) <= |x| && forall j | 0 <= j < |w| :: w[j] < UINT
    ensures |y| == |x|
  {
    if n == 0 then x else SetWord(PutWords(x, k, w, n - 1), k + n - 1, w[n - 1])
  }

  lemma {:induction false} PutWordsWord(x: Block, k: nat, w: seq<nat>, n: nat, j: nat)
    requires n <= |w| && 4 * (k + n) <= |x| && 4 * j + 4 <= |x| && forall j | 0 <= j < |w| :: w[j] < UINT
    ensures Word(PutWords(x, k, w, n), j) == if k <= j < k + n then w[j - k] else Word(x, j)
  {
    if n > 0 {
      PutWordsWord(x, k, w, n - 1, j);
      SetWordWord(PutWords(x, k, w, n - 1), k + n - 1, w[n - 1], j);
    }
  }
}
