/**
The on-disk layout of fs.h: bitmap bits, disk inodes of sixteen words, and the
direct and indirect block references an inode holds.
*/
module FsLayout {
  import opened Blocks

  const NDIRECT: nat := 12
  const NINDIRECT: nat := BSIZE / 4
  const MAXFILE: nat := NDIRECT + NINDIRECT
  const BPB: nat := BSIZE * 8
  const IPB: nat := BSIZE / 64

  /** The superblock; data blocks are the last nblocks of size. */
  datatype Super = Super(size: nat, nblocks: nat, ninodes: nat, inodestart: nat, bmapstart: nat)
  {
    function DataStart(): (b: int) {
      size - nblocks
    }

    /** The order mkfs lays out: inode blocks, bitmap blocks, data blocks. */
    ghost predicate Fits(d: Disk) {
      && size <= |d| && size < WORD
      && 0 < inodestart && inodestart + ninodes / IPB + 1 <= bmapstart
      && bmapstart + size / BPB + 1 <= DataStart() <= size
    }
  }

  // ---- bits ----

  predicate TestBit(x: nat, k: nat) {
    if k == 0 then x % 2 == 1 else TestBit(x / 2, k - 1)
  }

  /** x | 1 << k */
  function OrBit(x: nat, k: nat): (r: nat) {
    if k == 0 then x / 2 * 2 + 1 else x % 2 + 2 * OrBit(x / 2, k - 1)
  }

  /** x & ~(1 << k) */
  function ClearBit(x: nat, k: nat): (r: nat)
    ensures r <= x
  {
    if k == 0 then x / 2 * 2 else x % 2 + 2 * ClearBit(x / 2, k - 1)
  }

  function Pow2(n: nat): (p: nat)
    ensures p > 0
  {
    if n == 0 then 1 else 2 * Pow2(n - 1)
  }

  lemma {:induction false} OrBitFits(x: nat, k: nat, n: nat)
    requires k < n && x < Pow2(n)
    ensures OrBit(x, k) < Pow2(n)
  {
    if k > 0 {
      OrBitFits(x / 2, k - 1, n - 1);
    }
  }

  lemma {:induction false} TestAfterOr(x: nat, k: nat, j: nat)
    ensures TestBit(OrBit(x, k), j) <==> j == k || TestBit(x, j)
  {
    if j > 0 && k > 0 {
      TestAfterOr(x / 2, k - 1, j - 1);
    }
  }

  lemma {:induction false} TestAfterClear(x: nat, k: nat, j: nat)
    ensures TestBit(ClearBit(x, k), j) <==> j != k && TestBit(x, j)
  {
    if j > 0 && k > 0 {
      TestAfterClear(x / 2, k - 1, j - 1);
    }
  }

  predicate Bit(b: Block, i: nat)
    requires i < BPB
  {
    TestBit(b[i / 8], i % 8)
  }

  /** Setting a bit of a byte does not overflow it. */
  lemma ByteOr(x: byte, k: nat)
    requires k < 8
    ensures OrBit(x, k) < 256
  {
    assert Pow2(8) == 256 by { assert Pow2(4) == 16; }
    OrBitFits(x, k, 8);
  }

  function MarkBit(b: Block, i: nat): (r: Block)
    requires i < BPB
  {
    b[i / 8 := OrBit(b[i / 8], i % 8) % 0x100]
  }

  function FreeBit(b: Block, i: nat): (r: Block)
    requires i < BPB
  {
    b[i / 8 := ClearBit(b[i / 8], i % 8)]
  }

  lemma BitAfterMark(b: Block, i: nat, j: nat)
    requires i < BPB && j < BPB
    ensures Bit(MarkBit(b, i), j) <==> j == i || Bit(b, j)
  {
    ByteOr(b[i / 8], i % 8);
    TestAfterOr(b[i / 8], i % 8, j % 8);
  }

  lemma BitAfterFree(b: Block, i: nat, j: nat)
    requires i < BPB && j < BPB
    ensures Bit(FreeBit(b, i), j) <==> j != i && Bit(b, j)
  {
    TestAfterClear(b[i / 8], i % 8, j % 8);
  }

  /** Is block b marked in use in the free map? */
  predicate Used(sb: Super, d: Disk, b: nat)
    requires sb.bmapstart + b / BPB < |d|
  {
    Bit(d[sb.bmapstart + b / BPB], b % BPB)
  }

  // ---- inodes ----

  /** An inode's fields; addrs holds the direct blocks and then the indirect block. */
  datatype Node = Node(typ: nat, major: nat, minor: nat, nlink: nat, size: nat, addrs: seq<nat>)
  {
    ghost predicate Ok() {
      && typ < 0x1_0000 && major < 0x1_0000 && minor < 0x1_0000 && nlink < 0x1_0000
      && size < WORD && |addrs| == NDIRECT + 1 && forall i :: 0 <= i <= NDIRECT ==> addrs[i] < WORD
    }
  }

  /** The word of an inode block that holds word w of its kth inode. */
  function NodeWord(k: nat, w: nat): (i: nat)
    requires k < IPB && w < 16
    ensures i < BSIZE / 4
  {
    16 * k + w
  }

  /** The kth inode of an inode block. */
  function GetNode(b: Block, k: nat): (n: Node)
    requires k < IPB
    ensures n.Ok()
  {
    Node(Word(b, NodeWord(k, 0)) % 0x1_0000, Word(b, NodeWord(k, 0)) / 0x1_0000,
         Word(b, NodeWord(k, 1)) % 0x1_0000, Word(b, NodeWord(k, 1)) / 0x1_0000,
         Word(b, NodeWord(k, 2)),
         seq(NDIRECT + 1, i requires 0 <= i <= NDIRECT => Word(b, NodeWord(k, 3 + i))))
  }

  /** The first i addresses of n stored in the kth inode. */
  ghost function PutAddrs(b: Block, k: nat, n: Node, i: nat): (r: Block)
    requires k < IPB && n.Ok() && i <= NDIRECT + 1
  {
    if i == 0 then b else SetWord(PutAddrs(b, k, n, i - 1), NodeWord(k, 3 + i - 1), n.addrs[i - 1])
  }

  /** An inode block after iupdate's stores. */
  ghost function PutNode(b: Block, k: nat, n: Node): (r: Block)
    requires k < IPB && n.Ok()
  {
    var b0 := SetWord(b, NodeWord(k, 0), n.typ + 0x1_0000 * n.major);
    var b1 := SetWord(b0, NodeWord(k, 1), n.minor + 0x1_0000 * n.nlink);
    PutAddrs(SetWord(b1, NodeWord(k, 2), n.size), k, n, NDIRECT + 1)
  }

  lemma {:induction false} PutAddrsWords(b: Block, k: nat, n: Node, i: nat, j: nat)
    requires k < IPB && n.Ok() && i <= NDIRECT + 1 && j < BSIZE / 4
    ensures Word(PutAddrs(b, k, n, i), j) == if NodeWord(k, 3) <= j < NodeWord(k, 3) + i then n.addrs[j - NodeWord(k, 3)] else Word(b, j)
  {
    hide Word, SetWord;
    if i > 0 {
      PutAddrsWords(b, k, n, i - 1, j);
      WordAfterSet(PutAddrs(b, k, n, i - 1), NodeWord(k, 3 + i - 1), n.addrs[i - 1], j);
    }
  }

  lemma PutNodeWords(b: Block, k: nat, n: Node, j: nat)
    requires k < IPB && n.Ok() && j < BSIZE / 4
    ensures Word(PutNode(b, k, n), j) ==
              if j == NodeWord(k, 0) then n.typ + 0x1_0000 * n.major
              else if j == NodeWord(k, 1) then n.minor + 0x1_0000 * n.nlink
              else if j == NodeWord(k, 2) then n.size
              else if NodeWord(k, 3) <= j <= NodeWord(k, 15) then n.addrs[j - NodeWord(k, 3)]
              else Word(b, j)
  {
    hide Word, SetWord;
    var b0 := SetWord(b, NodeWord(k, 0), n.typ + 0x1_0000 * n.major);
    var b1 := SetWord(b0, NodeWord(k, 1), n.minor + 0x1_0000 * n.nlink);
    var b2 := SetWord(b1, NodeWord(k, 2), n.size);
    WordAfterSet(b, NodeWord(k, 0), n.typ + 0x1_0000 * n.major, j);
    WordAfterSet(b0, NodeWord(k, 1), n.minor + 0x1_0000 * n.nlink, j);
    WordAfterSet(b1, NodeWord(k, 2), n.size, j);
    PutAddrsWords(b2, k, n, NDIRECT + 1, j);
  }

  /** ilock after iupdate gives the inode back, and its neighbours are untouched. */
  lemma NodeRoundTrip(b: Block, k: nat, n: Node, j: nat)
    requires k < IPB && j < IPB && n.Ok()
    ensures GetNode(PutNode(b, k, n), j) == if j == k then n else GetNode(b, j)
  {
    hide Word, SetWord, PutNode;
    var r := PutNode(b, k, n);
    PutNodeWords(b, k, n, NodeWord(j, 0));
    PutNodeWords(b, k, n, NodeWord(j, 1));
    PutNodeWords(b, k, n, NodeWord(j, 2));
    forall i | 0 <= i <= NDIRECT
      ensures GetNode(r, j).addrs[i] == if j == k then n.addrs[i] else GetNode(b, j).addrs[i]
    {
      PutNodeWords(b, k, n, NodeWord(j, 3 + i));
    }
  }

  function InodeBlock(sb: Super, inum: nat): (b: nat) {
    inum / IPB + sb.inodestart
  }

  /** The inode inum as the disk holds it. */
  function Dinode(sb: Super, d: Disk, inum: nat): (n: Node)
    requires InodeBlock(sb, inum) < |d|
    ensures n.Ok()
  {
    GetNode(d[InodeBlock(sb, inum)], inum % IPB)
  }
}
