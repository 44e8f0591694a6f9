/**
What the inode layer keeps true of the block store: every marked block is
metadata or referenced exactly once, references stay inside the data area, and
files have no holes.  A file's meaning is the byte sequence its blocks spell.
*/
module FsState {
  import opened Blocks
  import opened FsLayout

  const NREF: nat := NDIRECT + 1 + NINDIRECT

  /** Reference j of an inode: direct blocks, the indirect block, then the indirect block's
      entries; 0 when absent. */
  function Ref(d: Disk, n: Node, j: nat): (b: nat) {
    if |n.addrs| != NDIRECT + 1 || j >= NREF then 0
    else if j <= NDIRECT then n.addrs[j]
    else if n.addrs[NDIRECT] == 0 || n.addrs[NDIRECT] >= |d| then 0
    else Word(d[n.addrs[NDIRECT]], j - NDIRECT - 1)
  }

  /** The reference that holds block bn of the file. */
  function Slot(bn: nat): (j: nat) {
    if bn < NDIRECT then bn else bn + 1
  }

  ghost predicate Owned(d: Disk, nodes: seq<Node>, b: nat) {
    exists i, j :: 0 <= i < |nodes| && 0 <= j < NREF && Ref(d, nodes[i], j) == b
  }

  ghost predicate RefsInside(sb: Super, d: Disk, nodes: seq<Node>) {
    forall i, j :: 0 <= i < |nodes| && 0 <= j < NREF && Ref(d, nodes[i], j) != 0 ==>
      sb.DataStart() <= Ref(d, nodes[i], j) < sb.size
  }

  ghost predicate RefsApart(d: Disk, nodes: seq<Node>) {
    forall i, j, i', j' ::
      (0 <= i < |nodes| && 0 <= i' < |nodes| && 0 <= j < NREF && 0 <= j' < NREF
       && Ref(d, nodes[i], j) != 0 && Ref(d, nodes[i], j) == Ref(d, nodes[i'], j')) ==> i == i' && j == j'
  }

  /** A bit is set exactly for metadata blocks and referenced blocks. */
  ghost predicate MapExact(sb: Super, d: Disk, nodes: seq<Node>)
    requires sb.Fits(d)
  {
    forall b :: 0 <= b < sb.size ==> (Used(sb, d, b) <==> b < sb.DataStart() || Owned(d, nodes, b))
  }

  ghost predicate Sound(sb: Super, d: Disk, nodes: seq<Node>) {
    && sb.Fits(d) && |nodes| == sb.ninodes && (forall i :: 0 <= i < |nodes| ==> nodes[i].Ok())
    && RefsInside(sb, d, nodes) && RefsApart(d, nodes) && MapExact(sb, d, nodes)
  }

  /** Every block below byte len is present. */
  ghost predicate Mapped(d: Disk, n: Node, len: nat) {
    len <= MAXFILE * BSIZE && forall bn :: 0 <= bn < MAXFILE && bn * BSIZE < len ==> Ref(d, n, Slot(bn)) != 0
  }

  ghost predicate Dense(d: Disk, nodes: seq<Node>) {
    forall i :: 0 <= i < |nodes| ==> Mapped(d, nodes[i], nodes[i].size)
  }

  /** The inode blocks are the same. */
  ghost predicate InodesKept(sb: Super, d: Disk, d': Disk) {
    |d'| == |d| && forall b :: sb.inodestart <= b < sb.bmapstart && b < |d| ==> d'[b] == d[b]
  }

  /** The disk holds these inodes, leaving out the one being changed in memory. */
  ghost predicate SyncedBut(sb: Super, d: Disk, nodes: seq<Node>, inum: int)
    requires sb.Fits(d)
  {
    forall i :: 0 <= i < |nodes| && i != inum && i < sb.ninodes ==> Dinode(sb, d, i) == nodes[i]
  }

  // ---- file contents ----

  function ByteAt(d: Disk, n: Node, k: nat): (x: byte) {
    var r := Ref(d, n, Slot(k / BSIZE));
    if r < |d| then d[r][k % BSIZE] else 0
  }

  ghost function Bytes(d: Disk, n: Node, len: nat): (s: seq<byte>)
    ensures |s| == len
  {
    seq(len, k requires 0 <= k < len => ByteAt(d, n, k))
  }

  /** A file as one flat byte sequence. */
  ghost function Content(d: Disk, n: Node): (s: seq<byte>)
    ensures |s| == n.size
  {
    Bytes(d, n, n.size)
  }

  /** c with s written over it at off, growing at the end. */
  function Splice(c: seq<byte>, off: nat, s: seq<byte>): (r: seq<byte>)
    requires off <= |c|
  {
    c[..off] + s + if off + |s| < |c| then c[off + |s|..] else []
  }

  // ---- one reference changes ----

  /** All references stay but reference j of inode i, which becomes b. */
  ghost predicate RefSet(d: Disk, nodes: seq<Node>, d': Disk, nodes': seq<Node>, i: nat, j: nat, b: nat) {
    && |nodes'| == |nodes|
    && forall i', j' :: 0 <= i' < |nodes| && 0 <= j' < NREF ==>
         Ref(d', nodes'[i'], j') == if i' == i && j' == j then b else Ref(d, nodes[i'], j')
  }

  /** Taking a free block for an absent reference keeps the invariant. */
  lemma AllocKeepsSound(sb: Super, d: Disk, nodes: seq<Node>, d': Disk, nodes': seq<Node>, i: nat, j: nat, b: nat)
    requires Sound(sb, d, nodes) && i < |nodes| && j < NREF && Ref(d, nodes[i], j) == 0
    requires b < sb.size && !Used(sb, d, b) && sb.Fits(d') && RefSet(d, nodes, d', nodes', i, j, b)
    requires forall k :: 0 <= k < |nodes'| ==> nodes'[k].Ok()
    requires forall x :: 0 <= x < sb.size ==> (Used(sb, d', x) <==> x == b || Used(sb, d, x))
    ensures b != 0 && !Owned(d, nodes, b) && Sound(sb, d', nodes')
  {
    hide Used, Ref;
    assert !Owned(d, nodes, b) && sb.DataStart() <= b;
    forall x | 0 <= x < sb.size ensures Used(sb, d', x) <==> x < sb.DataStart() || Owned(d', nodes', x) {
      if x == b {
        assert Ref(d', nodes'[i], j) == b;
      } else if Owned(d, nodes, x) {
        var p, q :| 0 <= p < |nodes| && 0 <= q < NREF && Ref(d, nodes[p], q) == x;
        assert x >= sb.DataStart() ==> Ref(d', nodes'[p], q) == x;
      }
    }
    assert RefsInside(sb, d', nodes');
    forall p, q, p', q' | 0 <= p < |nodes'| && 0 <= p' < |nodes'| && 0 <= q < NREF && 0 <= q' < NREF
        && Ref(d', nodes'[p], q) != 0 && Ref(d', nodes'[p], q) == Ref(d', nodes'[p'], q')
      ensures p == p' && q == q'
    {
    }
  }

  // ---- taking a block ----

  function MapBlock(sb: Super, b: nat): (m: nat) {
    b / BPB + sb.bmapstart
  }

  /** The store after balloc has marked and zeroed block b. */
  function Marked(sb: Super, d: Disk, b: nat): (d': Disk)
    requires MapBlock(sb, b) < |d| && b < |d|
    ensures |d'| == |d|
  {
    d[MapBlock(sb, b) := MarkBit(d[MapBlock(sb, b)], b % BPB)][b := ZeroBlock()]
  }

  lemma SameBit(x: nat, b: nat)
    ensures x / BPB == b / BPB && x % BPB == b % BPB ==> x == b
  {
  }

  lemma UsedAfterMark(sb: Super, d: Disk, b: nat, x: nat)
    requires sb.Fits(d) && sb.DataStart() <= b < sb.size && x < sb.size
    ensures Used(sb, Marked(sb, d, b), x) <==> x == b || Used(sb, d, x)
  {
    hide Bit, MarkBit;
    BitAfterMark(d[MapBlock(sb, b)], b % BPB, x % BPB);
    SameBit(x, b);
  }

  /** The inode with reference j, a direct or the indirect one, set to b. */
  function WithAddr(n: Node, j: nat, b: nat): (n': Node)
    requires n.Ok() && j <= NDIRECT && b < WORD
    ensures n'.Ok()
  {
    Node(n.typ, n.major, n.minor, n.nlink, n.size, n.addrs[j := b])
  }

  lemma DirectRefSet(sb: Super, d: Disk, nodes: seq<Node>, i: nat, j: nat, b: nat)
    requires Sound(sb, d, nodes) && i < |nodes| && j <= NDIRECT && nodes[i].addrs[j] == 0
    requires sb.DataStart() <= b < sb.size && !Owned(d, nodes, b)
    ensures RefSet(d, nodes, Marked(sb, d, b), nodes[i := WithAddr(nodes[i], j, b)], i, j, b)
  {
    hide MarkBit, Used, MapExact, RefsApart;
    var d', nodes' := Marked(sb, d, b), nodes[i := WithAddr(nodes[i], j, b)];
    forall p, q | 0 <= p < |nodes| && 0 <= q < NREF
      ensures Ref(d', nodes'[p], q) == if p == i && q == j then b else Ref(d, nodes[p], q)
    {
      var ind := nodes[p].addrs[NDIRECT];
      assert ind == Ref(d, nodes[p], NDIRECT);
      if p == i && j == NDIRECT && q > NDIRECT {
        assert Word(ZeroBlock(), q - NDIRECT - 1) == 0;
      } else if q > NDIRECT && ind != 0 {
        assert d'[ind] == d[ind];
      }
    }
  }

  /** The store after bmap has put b in entry j of the indirect block. */
  function WithEntry(d: Disk, ind: nat, j: nat, b: nat): (d': Disk)
    requires ind < |d| && NDIRECT < j < NREF && b < WORD
    ensures |d'| == |d|
  {
    d[ind := SetWord(d[ind], j - NDIRECT - 1, b)]
  }

  lemma EntryRefSet(sb: Super, d: Disk, nodes: seq<Node>, i: nat, j: nat, b: nat)
    requires Sound(sb, d, nodes) && i < |nodes| && NDIRECT < j < NREF && nodes[i].addrs[NDIRECT] != 0
    requires sb.DataStart() <= b < sb.size && !Owned(d, nodes, b)
    ensures nodes[i].addrs[NDIRECT] < sb.size
    ensures RefSet(d, nodes, WithEntry(Marked(sb, d, b), nodes[i].addrs[NDIRECT], j, b), nodes, i, j, b)
  {
    hide MarkBit, Used, MapExact, Word, SetWord;
    var ind := nodes[i].addrs[NDIRECT];
    assert ind == Ref(d, nodes[i], NDIRECT) && ind != b;
    var d' := WithEntry(Marked(sb, d, b), ind, j, b);
    forall p, q | 0 <= p < |nodes| && 0 <= q < NREF
      ensures Ref(d', nodes[p], q) == if p == i && q == j then b else Ref(d, nodes[p], q)
    {
      var other := nodes[p].addrs[NDIRECT];
      assert other == Ref(d, nodes[p], NDIRECT);
      if q > NDIRECT && other != 0 {
        if p == i {
          WordAfterSet(d[ind], j - NDIRECT - 1, b, q - NDIRECT - 1);
        } else {
          assert other != ind && other != b;
          assert d'[other] == d[other];
        }
      }
    }
  }

  lemma UsedAfterEntry(sb: Super, d: Disk, ind: nat, j: nat, b: nat, x: nat)
    requires sb.Fits(d) && sb.DataStart() <= ind < sb.size && NDIRECT < j < NREF && b < WORD && x < sb.size
    ensures Used(sb, WithEntry(d, ind, j, b), x) <==> Used(sb, d, x)
  {
    hide Bit, SetWord;
  }

  /** A block that is not marked is a data block nobody has. */
  lemma FreeBlock(sb: Super, d: Disk, nodes: seq<Node>, b: nat)
    requires Sound(sb, d, nodes) && b < sb.size && !Used(sb, d, b)
    ensures sb.Fits(d) && sb.DataStart() <= b && !Owned(d, nodes, b) && forall k :: 0 <= k < |nodes| ==> nodes[k].Ok()
  {
    hide Ref, Used, RefsInside, RefsApart;
  }

  lemma IndirectInside(sb: Super, d: Disk, nodes: seq<Node>, i: nat)
    requires Sound(sb, d, nodes) && i < |nodes| && nodes[i].addrs[NDIRECT] != 0
    ensures sb.Fits(d) && nodes[i].Ok() && sb.DataStart() <= nodes[i].addrs[NDIRECT] < sb.size
  {
    DirectRef(d, nodes[i], NDIRECT);
  }

  /** bmap's first allocation: a direct block or the indirect block. */
  lemma TakeDirect(sb: Super, d: Disk, nodes: seq<Node>, i: nat, j: nat, b: nat)
    requires Sound(sb, d, nodes) && i < |nodes| && j <= NDIRECT && nodes[i].addrs[j] == 0
    requires b < sb.size && !Used(sb, d, b)
    ensures sb.DataStart() <= b && !Owned(d, nodes, b)
    ensures var d', nodes' := Marked(sb, d, b), nodes[i := WithAddr(nodes[i], j, b)];
            Sound(sb, d', nodes') && RefSet(d, nodes, d', nodes', i, j, b)
  {
    hide Used, Sound, RefSet, Marked, Owned, Ref;
    FreeBlock(sb, d, nodes, b);
    DirectRef(d, nodes[i], j);
    DirectRefSet(sb, d, nodes, i, j, b);
    var d', nodes' := Marked(sb, d, b), nodes[i := WithAddr(nodes[i], j, b)];
    forall x | 0 <= x < sb.size ensures Used(sb, d', x) <==> x == b || Used(sb, d, x) {
      UsedAfterMark(sb, d, b, x);
    }
    AllocKeepsSound(sb, d, nodes, d', nodes', i, j, b);
  }

  /** bmap's second allocation: an entry of the indirect block. */
  lemma TakeEntry(sb: Super, d: Disk, nodes: seq<Node>, i: nat, j: nat, b: nat)
    requires Sound(sb, d, nodes) && i < |nodes| && NDIRECT < j < NREF && nodes[i].addrs[NDIRECT] != 0
    requires Ref(d, nodes[i], j) == 0 && b < sb.size && !Used(sb, d, b)
    ensures sb.DataStart() <= b && !Owned(d, nodes, b) && nodes[i].addrs[NDIRECT] < sb.size
    ensures var d' := WithEntry(Marked(sb, d, b), nodes[i].addrs[NDIRECT], j, b);
            Sound(sb, d', nodes) && RefSet(d, nodes, d', nodes, i, j, b)
  {
    hide Used, Sound, RefSet, Marked, Owned, WithEntry, Ref;
    FreeBlock(sb, d, nodes, b);
    IndirectInside(sb, d, nodes, i);
    EntryRefSet(sb, d, nodes, i, j, b);
    var ind := nodes[i].addrs[NDIRECT];
    var d' := WithEntry(Marked(sb, d, b), ind, j, b);
    forall x | 0 <= x < sb.size ensures Used(sb, d', x) <==> x == b || Used(sb, d, x) {
      UsedAfterMark(sb, d, b, x);
      UsedAfterEntry(sb, Marked(sb, d, b), ind, j, b, x);
    }
    AllocKeepsSound(sb, d, nodes, d', nodes, i, j, b);
  }

  /** What bmap on inode i leaves as it was: other inodes, references already present, and the
      contents of every data block. */
  ghost predicate Grown(d: Disk, nodes: seq<Node>, d': Disk, nodes': seq<Node>, i: nat) {
    && |d'| == |d| && |nodes'| == |nodes| && i < |nodes|
    && (forall p :: 0 <= p < |nodes| && p != i ==> nodes'[p] == nodes[p])
    && nodes'[i].(addrs := nodes[i].addrs) == nodes[i]
    && (forall p, q :: 0 <= p < |nodes| && 0 <= q < NREF && (p != i || Ref(d, nodes[p], q) != 0) ==> Ref(d', nodes'[p], q) == Ref(d, nodes[p], q))
    && (forall p, q :: 0 <= p < |nodes| && 0 <= q < NREF && q != NDIRECT && 0 < Ref(d, nodes[p], q) < |d| ==> d'[Ref(d, nodes[p], q)] == d[Ref(d, nodes[p], q)])
  }

  lemma GrownTwice(d: Disk, nodes: seq<Node>, d1: Disk, nodes1: seq<Node>, d2: Disk, nodes2: seq<Node>, i: nat)
    requires Grown(d, nodes, d1, nodes1, i) && Grown(d1, nodes1, d2, nodes2, i)
    ensures Grown(d, nodes, d2, nodes2, i)
  {
    hide Ref;
    forall p, q | 0 <= p < |nodes| && 0 <= q < NREF && (p != i || Ref(d, nodes[p], q) != 0)
      ensures Ref(d2, nodes2[p], q) == Ref(d, nodes[p], q)
    {
      assert Ref(d1, nodes1[p], q) == Ref(d, nodes[p], q);
    }
    forall p, q | 0 <= p < |nodes| && 0 <= q < NREF && q != NDIRECT && 0 < Ref(d, nodes[p], q) < |d|
      ensures d2[Ref(d, nodes[p], q)] == d[Ref(d, nodes[p], q)]
    {
      assert Ref(d1, nodes1[p], q) == Ref(d, nodes[p], q);
    }
  }

  lemma DirectGrows(sb: Super, d: Disk, nodes: seq<Node>, i: nat, j: nat, b: nat)
    requires Sound(sb, d, nodes) && i < |nodes| && j <= NDIRECT && nodes[i].addrs[j] == 0
    requires sb.DataStart() <= b < sb.size && !Owned(d, nodes, b)
    requires RefSet(d, nodes, Marked(sb, d, b), nodes[i := WithAddr(nodes[i], j, b)], i, j, b)
    ensures Grown(d, nodes, Marked(sb, d, b), nodes[i := WithAddr(nodes[i], j, b)], i)
  {
    hide Ref, MarkBit, RefsApart, MapExact;
    assert Ref(d, nodes[i], j) == 0 by { DirectRef(d, nodes[i], j); }
  }

  lemma DirectRef(d: Disk, n: Node, j: nat)
    requires |n.addrs| == NDIRECT + 1 && j <= NDIRECT
    ensures Ref(d, n, j) == n.addrs[j]
  {
  }

  lemma EntryGrows(sb: Super, d: Disk, nodes: seq<Node>, i: nat, j: nat, b: nat)
    requires Sound(sb, d, nodes) && i < |nodes| && NDIRECT < j < NREF && 0 != nodes[i].addrs[NDIRECT] < sb.size
    requires Ref(d, nodes[i], j) == 0 && sb.DataStart() <= b < sb.size && !Owned(d, nodes, b)
    requires RefSet(d, nodes, WithEntry(Marked(sb, d, b), nodes[i].addrs[NDIRECT], j, b), nodes, i, j, b)
    ensures Grown(d, nodes, WithEntry(Marked(sb, d, b), nodes[i].addrs[NDIRECT], j, b), nodes, i)
  {
    hide Ref, MarkBit, MapExact, RefsInside, RefsApart, Owned, SetWord, Marked, WithEntry;
    var d' := WithEntry(Marked(sb, d, b), nodes[i].addrs[NDIRECT], j, b);
    forall p, q | 0 <= p < |nodes| && 0 <= q < NREF && q != NDIRECT && 0 < Ref(d, nodes[p], q) < |d|
      ensures d'[Ref(d, nodes[p], q)] == d[Ref(d, nodes[p], q)]
    {
      EntryElsewhere(sb, d, nodes, i, j, b, p, q);
    }
  }

  lemma EntryElsewhere(sb: Super, d: Disk, nodes: seq<Node>, i: nat, j: nat, b: nat, p: nat, q: nat)
    requires Sound(sb, d, nodes) && i < |nodes| && NDIRECT < j < NREF && 0 != nodes[i].addrs[NDIRECT] < sb.size && sb.DataStart() <= b < sb.size && !Owned(d, nodes, b)
    requires p < |nodes| && q < NREF && q != NDIRECT && 0 < Ref(d, nodes[p], q) < |d|
    ensures WithEntry(Marked(sb, d, b), nodes[i].addrs[NDIRECT], j, b)[Ref(d, nodes[p], q)] == d[Ref(d, nodes[p], q)]
  {
    hide MarkBit, MapExact, SetWord;
    DirectRef(d, nodes[i], NDIRECT);
    hide Ref;
    assert Ref(d, nodes[p], q) != nodes[i].addrs[NDIRECT] && Ref(d, nodes[p], q) != b;
    assert sb.DataStart() <= Ref(d, nodes[p], q);
  }

  // ---- writing data, writing an inode ----

  /** Overwriting a data block moves no reference. */
  lemma DataWriteKeeps(sb: Super, d: Disk, nodes: seq<Node>, i: nat, j: nat, x: Block)
    requires Sound(sb, d, nodes) && i < |nodes| && j < NREF && j != NDIRECT && Ref(d, nodes[i], j) != 0
    ensures Ref(d, nodes[i], j) < sb.size
    ensures var d' := d[Ref(d, nodes[i], j) := x];
            && Sound(sb, d', nodes)
            && (forall p, q :: 0 <= p < |nodes| && 0 <= q < NREF ==> Ref(d', nodes[p], q) == Ref(d, nodes[p], q))
  {
    var r := Ref(d, nodes[i], j);
    var d' := d[r := x];
    forall p, q | 0 <= p < |nodes| && 0 <= q < NREF ensures Ref(d', nodes[p], q) == Ref(d, nodes[p], q) {
      DirectRef(d, nodes[p], NDIRECT);
    }
    SameRefsSound(sb, d, nodes, d');
  }

  ghost predicate SameRefs(d: Disk, d': Disk, nodes: seq<Node>) {
    forall p, q :: 0 <= p < |nodes| && 0 <= q < NREF ==> Ref(d', nodes[p], q) == Ref(d, nodes[p], q)
  }

  lemma SameOwned(d: Disk, d': Disk, nodes: seq<Node>, b: nat)
    requires SameRefs(d, d', nodes)
    ensures Owned(d', nodes, b) == Owned(d, nodes, b)
  {
    hide Ref;
    if Owned(d, nodes, b) {
      var p, q :| 0 <= p < |nodes| && 0 <= q < NREF && Ref(d, nodes[p], q) == b;
      assert Ref(d', nodes[p], q) == b;
    }
    if Owned(d', nodes, b) {
      var p, q :| 0 <= p < |nodes| && 0 <= q < NREF && Ref(d', nodes[p], q) == b;
      assert Ref(d, nodes[p], q) == b;
    }
  }

  lemma SameApart(d: Disk, d': Disk, nodes: seq<Node>)
    requires SameRefs(d, d', nodes) && RefsApart(d, nodes)
    ensures RefsApart(d', nodes)
  {
    hide Ref;
  }

  /** A change that moves no reference and leaves the free map alone keeps the invariant. */
  lemma SameRefsSound(sb: Super, d: Disk, nodes: seq<Node>, d': Disk)
    requires Sound(sb, d, nodes) && |d'| == |d|
    requires forall b :: sb.bmapstart <= b <= sb.bmapstart + sb.size / BPB ==> d'[b] == d[b]
    requires forall p, q :: 0 <= p < |nodes| && 0 <= q < NREF ==> Ref(d', nodes[p], q) == Ref(d, nodes[p], q)
    ensures Sound(sb, d', nodes)
  {
    hide Ref, Bit, Owned, RefsApart;
    forall b | 0 <= b < sb.size ensures Used(sb, d', b) <==> b < sb.DataStart() || Owned(d', nodes, b) {
      assert Used(sb, d', b) == Used(sb, d, b);
      SameOwned(d, d', nodes, b);
    }
    SameApart(d, d', nodes);
  }

  /** The store after iupdate, if the inode block is on the disk. */
  ghost function WithNode(sb: Super, d: Disk, inum: nat, n: Node): (d': Disk)
    ensures |d'| == |d|
  {
    if InodeBlock(sb, inum) < |d| && n.Ok() then d[InodeBlock(sb, inum) := PutNode(d[InodeBlock(sb, inum)], inum % IPB, n)] else d
  }

  lemma InodeBlockBelow(sb: Super, d: Disk, inum: nat)
    requires sb.Fits(d) && inum < sb.ninodes
    ensures InodeBlock(sb, inum) < sb.bmapstart < sb.DataStart() <= |d|
  {
  }

  lemma NodeWriteKeeps(sb: Super, d: Disk, nodes: seq<Node>, inum: nat, d': Disk)
    requires Sound(sb, d, nodes) && inum < |nodes| && d' == WithNode(sb, d, inum, nodes[inum])
    ensures Sound(sb, d', nodes)
    ensures forall p, q :: 0 <= p < |nodes| && 0 <= q < NREF ==> Ref(d', nodes[p], q) == Ref(d, nodes[p], q)
    ensures forall b :: sb.bmapstart <= b < |d| ==> d'[b] == d[b]
  {
    hide PutNode, GetNode, Word, InodeBlock, MapExact, RefsApart, Used;
    InodeBlockBelow(sb, d, inum);
    forall p, q | 0 <= p < |nodes| && 0 <= q < NREF ensures Ref(d', nodes[p], q) == Ref(d, nodes[p], q) {
      DirectRef(d, nodes[p], NDIRECT);
    }
    SameRefsSound(sb, d, nodes, d');
  }

  lemma SamePlace(i: nat, k: nat)
    requires i / IPB == k / IPB && i % IPB == k % IPB
    ensures i == k
  {
  }

  lemma NodeWriteOne(sb: Super, d: Disk, n: Node, inum: nat, k: nat)
    requires sb.Fits(d) && inum < sb.ninodes && k < sb.ninodes && n.Ok()
    ensures InodeBlock(sb, k) < |d|
    ensures Dinode(sb, WithNode(sb, d, inum, n), k) == if k == inum then n else Dinode(sb, d, k)
  {
    hide PutNode, GetNode;
    InodeBlockBelow(sb, d, inum);
    InodeBlockBelow(sb, d, k);
    NodeRoundTrip(d[InodeBlock(sb, inum)], inum % IPB, n, k % IPB);
    if InodeBlock(sb, k) == InodeBlock(sb, inum) && k % IPB == inum % IPB { SamePlace(k, inum); }
  }

  /** After iupdate the disk holds the inode in memory. */
  lemma NodeWriteSyncs(sb: Super, d: Disk, nodes: seq<Node>, inum: nat, d': Disk)
    requires sb.Fits(d) && |nodes| == sb.ninodes && inum < |nodes| && nodes[inum].Ok() && SyncedBut(sb, d, nodes, inum)
    requires d' == WithNode(sb, d, inum, nodes[inum])
    ensures SyncedBut(sb, d', nodes, -1)
  {
    hide PutNode, GetNode, Dinode, InodeBlock;
    forall k | 0 <= k < |nodes| ensures InodeBlock(sb, k) < |d'| && Dinode(sb, d', k) == nodes[k] {
      NodeWriteOne(sb, d, nodes[inum], inum, k);
    }
  }

  /** Inodes on disk depend on the inode blocks only. */
  lemma SyncedFrame(sb: Super, d: Disk, nodes: seq<Node>, d': Disk, nodes': seq<Node>, inum: int)
    requires sb.Fits(d) && sb.Fits(d') && SyncedBut(sb, d, nodes, inum) && |nodes| == |nodes'|
    requires InodesKept(sb, d, d')
    requires forall p :: 0 <= p < |nodes| && p != inum ==> nodes'[p] == nodes[p]
    ensures SyncedBut(sb, d', nodes', inum)
  {
    hide GetNode;
  }
}
