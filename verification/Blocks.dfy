/**
Disk blocks as byte sequences, and the little-endian 32-bit words the kernel
keeps in them.
*/
module Blocks {
  const BSIZE: nat := 512
  const WORD: nat := 0x1_0000_0000

  type byte = x: int | 0 <= x < 256
  type Block = b: seq<byte> | |b| == BSIZE witness seq(BSIZE, _ => 0)
  type Disk = seq<Block>

  function ZeroBlock(): (b: Block) {
    seq(BSIZE, _ => 0)
  }

  // ---- 32-bit words ----

  /** The kth little-endian word of a block. */
  function Word(b: Block, k: nat): (w: nat)
    requires k < BSIZE / 4
    ensures w < WORD
  {
    var b0: int, b1: int, b2: int, b3: int := b[4 * k], b[4 * k + 1], b[4 * k + 2], b[4 * k + 3];
    b0 + 0x100 * b1 + 0x1_0000 * b2 + 0x100_0000 * b3
  }

  /** Store v as the kth word of a block. */
  function SetWord(b: Block, k: nat, v: nat): (r: Block)
    requires k < BSIZE / 4 && v < WORD
  {
    b[4 * k := v % 0x100][4 * k + 1 := v / 0x100 % 0x100][4 * k + 2 := v / 0x1_0000 % 0x100][4 * k + 3 := v / 0x100_0000]
  }

  lemma SplitWord(v: nat)
    requires v < WORD
    ensures v / 0x100_0000 < 0x100
    ensures v % 0x100 + 0x100 * (v / 0x100 % 0x100) + 0x1_0000 * (v / 0x1_0000 % 0x100) + 0x100_0000 * (v / 0x100_0000) == v
  {
    assert v / 0x1_0000 == v / 0x100 / 0x100;
    assert v / 0x100_0000 == v / 0x1_0000 / 0x100;
  }

  /** Reading a word back after a store: the stored value at its own index, the old word elsewhere. */
  lemma WordAfterSet(b: Block, k: nat, v: nat, j: nat)
    requires k < BSIZE / 4 && j < BSIZE / 4 && v < WORD
    ensures Word(SetWord(b, k, v), j) == if j == k then v else Word(b, j)
  {
    SplitWord(v);
    if j < k || k < j {
      var r := SetWord(b, k, v);
      assert r[4 * j] == b[4 * j] && r[4 * j + 1] == b[4 * j + 1];
      assert r[4 * j + 2] == b[4 * j + 2] && r[4 * j + 3] == b[4 * j + 3];
    }
  }
}
