/**
How writes to single blocks show in the flat byte sequences of files.
*/
module FsContent {
  import opened Blocks
  import opened FsLayout
  import opened FsState

  function Max(a: nat, b: nat): (m: nat) {
    if a < b then b else a
  }

  /** Writing s1 and then s2 behind it is writing both. */
  lemma SpliceTwice(c: seq<byte>, off: nat, s1: seq<byte>, s2: seq<byte>)
    requires off <= |c|
    ensures off + |s1| <= |Splice(c, off, s1)|
    ensures Splice(Splice(c, off, s1), off + |s1|, s2) == Splice(c, off, s1 + s2)
  {
  }

  /** Reading back what was written, and what lies around it. */
  lemma ReadAfterWrite(c: seq<byte>, off: nat, s: seq<byte>, k: nat)
    requires off <= |c| && k < Max(|c|, off + |s|)
    ensures |Splice(c, off, s)| == Max(|c|, off + |s|)
    ensures Splice(c, off, s)[k] == if off <= k < off + |s| then s[k - off] else c[k]
  {
  }

  /** A block with s stored at offset o. */
  function Patch(b: Block, o: nat, s: seq<byte>): (r: Block)
    requires o + |s| <= BSIZE
  {
    b[..o] + s + b[o + |s|..]
  }

  lemma BlockOf(k: nat, len: nat)
    requires k < len <= MAXFILE * BSIZE
    ensures k / BSIZE < MAXFILE && k / BSIZE * BSIZE <= k && k / BSIZE * BSIZE < len
  {
  }

  /** Files whose blocks and references are untouched read the same. */
  lemma BytesFrame(d: Disk, n: Node, d': Disk, n': Node, len: nat)
    requires len <= MAXFILE * BSIZE && |d'| == |d|
    requires forall bn :: 0 <= bn < MAXFILE && bn * BSIZE < len ==>
               && Ref(d', n', Slot(bn)) == Ref(d, n, Slot(bn))
               && (Ref(d, n, Slot(bn)) < |d| ==> d'[Ref(d, n, Slot(bn))] == d[Ref(d, n, Slot(bn))])
    ensures Bytes(d', n', len) == Bytes(d, n, len)
  {
    hide Ref, Slot;
    forall k | 0 <= k < len ensures ByteAt(d', n', k) == ByteAt(d, n, k) {
      BlockOf(k, len);
    }
  }

  /** One round of writei: bn was mapped by bmap, then its block patched. */
  ghost predicate Patched(d: Disk, n: Node, d1: Disk, n1: Node, d2: Disk, bn: nat, o: nat, s: seq<byte>) {
    && |d| == |d1| == |d2| && bn < MAXFILE && o + |s| <= BSIZE
    && (forall q :: 0 <= q < MAXFILE && Ref(d, n, Slot(q)) != 0 ==> Ref(d1, n1, Slot(q)) == Ref(d, n, Slot(q)))
    && (forall q :: 0 <= q < MAXFILE && 0 < Ref(d, n, Slot(q)) < |d| ==> d1[Ref(d, n, Slot(q))] == d[Ref(d, n, Slot(q))])
    && (forall q :: 0 <= q < MAXFILE ==> Ref(d2, n1, Slot(q)) == Ref(d1, n1, Slot(q)))
    && (forall q :: 0 <= q < MAXFILE && q != bn ==> Ref(d1, n1, Slot(q)) != Ref(d1, n1, Slot(bn)))
    && 0 < Ref(d1, n1, Slot(bn)) < |d1|
    && d2 == d1[Ref(d1, n1, Slot(bn)) := Patch(d1[Ref(d1, n1, Slot(bn))], o, s)]
  }

  lemma PatchedByte(d: Disk, n: Node, d1: Disk, n1: Node, d2: Disk, len: nat, off: nat, s: seq<byte>, k: nat)
    requires Mapped(d, n, len) && off <= len && 0 < |s| && Patched(d, n, d1, n1, d2, off / BSIZE, off % BSIZE, s)
    requires k < Max(len, off + |s|) <= MAXFILE * BSIZE
    ensures ByteAt(d2, n1, k) == if off <= k < off + |s| then s[k - off] else ByteAt(d, n, k)
  {
    hide Ref, Slot;
    var bn := off / BSIZE;
    assert off == bn * BSIZE + off % BSIZE;
    BlockOf(k, Max(len, off + |s|));
    var q := k / BSIZE;
    assert k == q * BSIZE + k % BSIZE;
    if k < len {
      assert Ref(d, n, Slot(q)) != 0;
    }
  }

  lemma PatchedBytes(d: Disk, n: Node, d1: Disk, n1: Node, d2: Disk, len: nat, off: nat, s: seq<byte>)
    requires Mapped(d, n, len) && off <= len && 0 < |s| && Patched(d, n, d1, n1, d2, off / BSIZE, off % BSIZE, s)
    requires off + |s| <= MAXFILE * BSIZE
    ensures Bytes(d2, n1, Max(len, off + |s|)) == Splice(Bytes(d, n, len), off, s)
    ensures Mapped(d2, n1, Max(len, off + |s|))
  {
    hide Ref, Slot, Patched, ByteAt;
    forall k | 0 <= k < Max(len, off + |s|)
      ensures Bytes(d2, n1, Max(len, off + |s|))[k] == Splice(Bytes(d, n, len), off, s)[k]
    {
      PatchedByte(d, n, d1, n1, d2, len, off, s, k);
    }
    PatchedMapped(d, n, d1, n1, d2, len, off, s);
  }

  lemma PatchedMapped(d: Disk, n: Node, d1: Disk, n1: Node, d2: Disk, len: nat, off: nat, s: seq<byte>)
    requires Mapped(d, n, len) && off <= len && 0 < |s| && Patched(d, n, d1, n1, d2, off / BSIZE, off % BSIZE, s)
    requires off + |s| <= MAXFILE * BSIZE
    ensures Mapped(d2, n1, Max(len, off + |s|))
  {
    hide Ref, Slot;
    forall q | 0 <= q < MAXFILE && q * BSIZE < Max(len, off + |s|) ensures Ref(d2, n1, Slot(q)) != 0 {
      if q * BSIZE >= len {
        assert q == off / BSIZE;
      }
    }
  }

  // ---- writei as a whole ----

  /** Every inode but i keeps its fields, its references and its data. */
  ghost predicate OthersKept(d: Disk, nodes: seq<Node>, d': Disk, nodes': seq<Node>, i: nat) {
    && |d'| == |d| && |nodes'| == |nodes| && i < |nodes|
    && (forall p :: 0 <= p < |nodes| && p != i ==> nodes'[p] == nodes[p])
    && (forall p, q :: 0 <= p < |nodes| && p != i && 0 <= q < NREF ==> Ref(d', nodes'[p], q) == Ref(d, nodes[p], q))
    && (forall p, q :: 0 <= p < |nodes| && p != i && 0 <= q < NREF && q != NDIRECT && 0 < Ref(d, nodes[p], q) < |d| ==> d'[Ref(d, nodes[p], q)] == d[Ref(d, nodes[p], q)])
  }

  /** So their contents read the same. */
  lemma OthersReadSame(d: Disk, nodes: seq<Node>, d': Disk, nodes': seq<Node>, i: nat, p: nat)
    requires OthersKept(d, nodes, d', nodes', i) && p < |nodes| && p != i && Mapped(d, nodes[p], nodes[p].size)
    ensures Content(d', nodes'[p]) == Content(d, nodes[p]) && Mapped(d', nodes'[p], nodes'[p].size)
  {
    hide Ref, ByteAt;
    BytesFrame(d, nodes[p], d', nodes'[p], nodes[p].size);
  }

  lemma OthersKeptTwice(d: Disk, nodes: seq<Node>, d1: Disk, nodes1: seq<Node>, d2: Disk, nodes2: seq<Node>, i: nat)
    requires OthersKept(d, nodes, d1, nodes1, i) && OthersKept(d1, nodes1, d2, nodes2, i)
    ensures OthersKept(d, nodes, d2, nodes2, i)
  {
    hide Ref;
    forall p, q | 0 <= p < |nodes| && p != i && 0 <= q < NREF ensures Ref(d2, nodes2[p], q) == Ref(d, nodes[p], q) {
      assert Ref(d1, nodes1[p], q) == Ref(d, nodes[p], q);
    }
    forall p, q | 0 <= p < |nodes| && p != i && 0 <= q < NREF && q != NDIRECT && 0 < Ref(d, nodes[p], q) < |d|
      ensures d2[Ref(d, nodes[p], q)] == d[Ref(d, nodes[p], q)]
    {
      assert Ref(d1, nodes1[p], q) == Ref(d, nodes[p], q);
    }
  }

  lemma SlotsApart(sb: Super, d: Disk, nodes: seq<Node>, i: nat, bn: nat)
    requires Sound(sb, d, nodes) && i < |nodes| && bn < MAXFILE && Ref(d, nodes[i], Slot(bn)) != 0
    ensures forall q :: 0 <= q < MAXFILE && q != bn ==> Ref(d, nodes[i], Slot(q)) != Ref(d, nodes[i], Slot(bn))
  {
    hide Ref, MapExact;
    forall q | 0 <= q < MAXFILE && q != bn ensures Ref(d, nodes[i], Slot(q)) != Ref(d, nodes[i], Slot(bn)) {
      assert Slot(q) != Slot(bn) && Slot(q) < NREF && Slot(bn) < NREF;
    }
  }

  /** bmap followed by a patch of the block it returned. */
  lemma RoundPatches(sb: Super, d: Disk, nodes: seq<Node>, d1: Disk, nodes1: seq<Node>, i: nat, bn: nat, o: nat, s: seq<byte>)
    requires Sound(sb, d1, nodes1) && Grown(d, nodes, d1, nodes1, i) && bn < MAXFILE && o + |s| <= BSIZE
    requires Ref(d1, nodes1[i], Slot(bn)) != 0
    ensures Ref(d1, nodes1[i], Slot(bn)) < sb.size <= |d1|
    ensures var r := Ref(d1, nodes1[i], Slot(bn));
            var d2 := d1[r := Patch(d1[r], o, s)];
            && Sound(sb, d2, nodes1)
            && Patched(d, nodes[i], d1, nodes1[i], d2, bn, o, s)
            && OthersKept(d, nodes, d2, nodes1, i)
  {
    hide Ref, MapExact, Patch;
    assert Slot(bn) < NREF && Slot(bn) != NDIRECT;
    var r := Ref(d1, nodes1[i], Slot(bn));
    var d2 := d1[r := Patch(d1[r], o, s)];
    SlotsApart(sb, d1, nodes1, i, bn);
    DataWriteKeeps(sb, d1, nodes1, i, Slot(bn), Patch(d1[r], o, s));
    forall q | 0 <= q < MAXFILE ensures Slot(q) < NREF && Slot(q) != NDIRECT {
    }
    forall p, q | 0 <= p < |nodes| && p != i && 0 <= q < NREF && q != NDIRECT && 0 < Ref(d, nodes[p], q) < |d|
      ensures d2[Ref(d, nodes[p], q)] == d[Ref(d, nodes[p], q)]
    {
      assert Ref(d1, nodes1[p], q) == Ref(d, nodes[p], q);
    }
  }

  /** writei after writing s at off0: the file reads as spliced, everything else as before, and an
      inode whose size has not been passed is untouched. */
  ghost predicate Writing(sb: Super, d0: Disk, nodes0: seq<Node>, d: Disk, nodes: seq<Node>, i: nat, off0: nat, s: seq<byte>) {
    && Sound(sb, d, nodes) && OthersKept(d0, nodes0, d, nodes, i)
    && nodes[i].(addrs := nodes0[i].addrs) == nodes0[i] && off0 <= nodes0[i].size
    && Mapped(d, nodes[i], Max(nodes0[i].size, off0 + |s|))
    && Bytes(d, nodes[i], Max(nodes0[i].size, off0 + |s|)) == Splice(Content(d0, nodes0[i]), off0, s)
    && InodesKept(sb, d0, d)
    && (off0 + |s| <= nodes0[i].size ==> nodes == nodes0)
  }

  lemma WritingStarts(sb: Super, d: Disk, nodes: seq<Node>, i: nat, off: nat)
    requires Sound(sb, d, nodes) && i < |nodes| && off <= nodes[i].size && Mapped(d, nodes[i], nodes[i].size)
    ensures Writing(sb, d, nodes, d, nodes, i, off, [])
  {
    hide Ref, ByteAt;
    assert Splice(Content(d, nodes[i]), off, []) == Content(d, nodes[i]);
  }

  /** One more round. */
  lemma WritingAdvances(sb: Super, d0: Disk, nodes0: seq<Node>, d: Disk, nodes: seq<Node>, i: nat, off0: nat, s: seq<byte>,
                        d1: Disk, nodes1: seq<Node>, r: nat, more: seq<byte>)
    requires Writing(sb, d0, nodes0, d, nodes, i, off0, s) && i < |nodes0| && 0 < |more|
    requires var off := off0 + |s|;
             && off % BSIZE + |more| <= BSIZE && off + |more| <= MAXFILE * BSIZE
             && Sound(sb, d1, nodes1) && Grown(d, nodes, d1, nodes1, i)
             && r == Ref(d1, nodes1[i], Slot(off / BSIZE)) != 0
             && (Ref(d, nodes[i], Slot(off / BSIZE)) != 0 ==> nodes1 == nodes)
             && InodesKept(sb, d, d1)
    ensures r < |d1| && sb.DataStart() <= r
    ensures Writing(sb, d0, nodes0, d1[r := Patch(d1[r], (off0 + |s|) % BSIZE, more)], nodes1, i, off0, s + more)
  {
    hide Ref, ByteAt, Splice, Patch, Grown, Patched, OthersKept, RefsApart, RefsInside, MapExact;
    var off, len := off0 + |s|, Max(nodes0[i].size, off0 + |s|);
    GrownFields(d, nodes, d1, nodes1, i);
    var bn, o := off / BSIZE, off % BSIZE;
    assert bn < MAXFILE;
    RoundPatches(sb, d, nodes, d1, nodes1, i, bn, o, more);
    var d2 := d1[r := Patch(d1[r], o, more)];
    PatchedBytes(d, nodes[i], d1, nodes1[i], d2, len, off, more);
    SpliceTwice(Content(d0, nodes0[i]), off0, s, more);
    OthersKeptTwice(d0, nodes0, d, nodes, d2, nodes1, i);
    if off + |more| <= nodes0[i].size {
      assert bn * BSIZE < nodes0[i].size;
      assert nodes1 == nodes;
    }
    assert sb.DataStart() <= r by { SlotInside(sb, d1, nodes1, i, bn); }
  }

  lemma GrownFields(d: Disk, nodes: seq<Node>, d': Disk, nodes': seq<Node>, i: nat)
    requires Grown(d, nodes, d', nodes', i)
    ensures |nodes'| == |nodes| && |d'| == |d| && i < |nodes| && nodes'[i].(addrs := nodes[i].addrs) == nodes[i]
  {
  }

  lemma SlotInside(sb: Super, d: Disk, nodes: seq<Node>, i: nat, bn: nat)
    requires Sound(sb, d, nodes) && i < |nodes| && bn < MAXFILE && Ref(d, nodes[i], Slot(bn)) != 0
    ensures sb.Fits(d) && sb.DataStart() <= Ref(d, nodes[i], Slot(bn)) < sb.size
  {
    hide Ref;
  }

  /** The effect of a whole writei: inode i reads as spliced and has grown to its new end, no other
      inode changed in any byte, and the invariant holds with every inode on disk. */
  ghost predicate Wrote(sb: Super, d: Disk, nodes: seq<Node>, d': Disk, nodes': seq<Node>, i: nat, off: nat, s: seq<byte>) {
    && Sound(sb, d', nodes') && Dense(d', nodes') && SyncedBut(sb, d', nodes', -1)
    && |nodes'| == |nodes| && i < |nodes| && off <= nodes[i].size
    && nodes'[i].(addrs := nodes[i].addrs) == nodes[i].(size := Max(nodes[i].size, off + |s|))
    && Content(d', nodes'[i]) == Splice(Content(d, nodes[i]), off, s)
    && forall p :: 0 <= p < |nodes| && p != i ==> nodes'[p] == nodes[p] && Content(d', nodes'[p]) == Content(d, nodes[p])
  }

  lemma OthersDense(d: Disk, nodes: seq<Node>, d': Disk, nodes': seq<Node>, i: nat)
    requires OthersKept(d, nodes, d', nodes', i) && Dense(d, nodes) && Mapped(d', nodes'[i], nodes'[i].size)
    ensures Dense(d', nodes')
    ensures forall p :: 0 <= p < |nodes| && p != i ==> nodes'[p] == nodes[p] && Content(d', nodes'[p]) == Content(d, nodes[p])
  {
    hide Ref, Mapped, Content, OthersKept;
    OthersShape(d, nodes, d', nodes', i);
    forall p | 0 <= p < |nodes| && p != i
      ensures nodes'[p] == nodes[p] && Content(d', nodes'[p]) == Content(d, nodes[p]) && Mapped(d', nodes'[p], nodes'[p].size)
    {
      OthersReadSame(d, nodes, d', nodes', i, p);
    }
  }

  lemma OthersShape(d: Disk, nodes: seq<Node>, d': Disk, nodes': seq<Node>, i: nat)
    requires OthersKept(d, nodes, d', nodes', i)
    ensures |d'| == |d| && |nodes'| == |nodes| && i < |nodes| && forall p :: 0 <= p < |nodes| && p != i ==> nodes'[p] == nodes[p]
  {
  }

  /** A write that stays inside the file needs no inode update: the disk already holds it. */
  lemma WroteInside(sb: Super, d0: Disk, nodes0: seq<Node>, d: Disk, nodes: seq<Node>, i: nat, off: nat, s: seq<byte>)
    requires sb.Fits(d0) && Dense(d0, nodes0) && SyncedBut(sb, d0, nodes0, -1)
    requires i < |nodes0| && Writing(sb, d0, nodes0, d, nodes, i, off, s) && off + |s| <= nodes0[i].size
    ensures Wrote(sb, d0, nodes0, d, nodes, i, off, s)
  {
    hide Ref, OthersKept, RefsApart, RefsInside, MapExact, ByteAt, Mapped, Dinode;
    OthersDense(d0, nodes0, d, nodes, i);
    SyncedFrame(sb, d0, nodes0, d, nodes, -1);
  }

  lemma ResizeKeepsSound(sb: Super, d: Disk, nodes: seq<Node>, i: nat, size: nat)
    requires Sound(sb, d, nodes) && i < |nodes| && size < WORD
    ensures Sound(sb, d, nodes[i := nodes[i].(size := size)])
    ensures forall p, q :: 0 <= p < |nodes| && 0 <= q < NREF ==> Ref(d, nodes[i := nodes[i].(size := size)][p], q) == Ref(d, nodes[p], q)
  {
    var nodes' := nodes[i := nodes[i].(size := size)];
    forall p, q | 0 <= p < |nodes| && 0 <= q < NREF ensures Ref(d, nodes'[p], q) == Ref(d, nodes[p], q) {
    }
    hide Ref, Used;
    forall b | 0 <= b < sb.size ensures Owned(d, nodes', b) <==> Owned(d, nodes, b) {
      if Owned(d, nodes, b) {
        var p, q :| 0 <= p < |nodes| && 0 <= q < NREF && Ref(d, nodes[p], q) == b;
        assert Ref(d, nodes'[p], q) == b;
      }
      if Owned(d, nodes', b) {
        var p, q :| 0 <= p < |nodes'| && 0 <= q < NREF && Ref(d, nodes'[p], q) == b;
        assert Ref(d, nodes[p], q) == b;
      }
    }
  }

  /** A write past the end sets the size and updates the inode on disk. */
  lemma WroteBeyond(sb: Super, d0: Disk, nodes0: seq<Node>, d: Disk, nodes: seq<Node>, i: nat, off: nat, s: seq<byte>,
                    nodes': seq<Node>, d': Disk)
    requires sb.Fits(d0) && Dense(d0, nodes0) && SyncedBut(sb, d0, nodes0, -1)
    requires i < |nodes0| && Writing(sb, d0, nodes0, d, nodes, i, off, s) && nodes0[i].size < off + |s| < WORD
    requires nodes' == nodes[i := nodes[i].(size := off + |s|)]
    requires nodes'[i].Ok() && InodeBlock(sb, i) < |d| && d' == WithNode(sb, d, i, nodes'[i])
    ensures Wrote(sb, d0, nodes0, d', nodes', i, off, s)
  {
    hide Ref, RefsApart, RefsInside, MapExact, SyncedBut, Dense, Mapped, Bytes, Splice, Dinode, WithNode, OthersKept;
    OthersShape(d0, nodes0, d, nodes, i);
    ResizeKeepsSound(sb, d, nodes, i, off + |s|);
    NodeWriteKeeps(sb, d, nodes', i, d');
    SyncedWeaker(sb, d0, nodes0, i);
    SyncedFrame(sb, d0, nodes0, d, nodes', i);
    NodeWriteSyncs(sb, d, nodes', i, d');
    InodeWriteFrame(sb, d0, nodes0, d, nodes, i, nodes', d', off + |s|);
    OthersDense(d0, nodes0, d', nodes', i);
  }

  lemma SyncedWeaker(sb: Super, d: Disk, nodes: seq<Node>, i: nat)
    requires sb.Fits(d) && SyncedBut(sb, d, nodes, -1)
    ensures SyncedBut(sb, d, nodes, i)
  {
    hide Dinode;
  }

  lemma InodeWriteFrame(sb: Super, d0: Disk, nodes0: seq<Node>, d: Disk, nodes: seq<Node>, i: nat, nodes': seq<Node>, d': Disk, len: nat)
    requires OthersKept(d0, nodes0, d, nodes, i) && Sound(sb, d, nodes) && |d'| == |d| && |nodes'| == |nodes|
    requires forall p :: 0 <= p < |nodes| && p != i ==> nodes'[p] == nodes[p]
    requires forall p, q :: 0 <= p < |nodes| && 0 <= q < NREF ==> Ref(d', nodes'[p], q) == Ref(d, nodes[p], q)
    requires forall b :: sb.DataStart() <= b < |d| ==> d'[b] == d[b]
    requires Mapped(d, nodes[i], len)
    ensures OthersKept(d0, nodes0, d', nodes', i)
    ensures Mapped(d', nodes'[i], len) && Bytes(d', nodes'[i], len) == Bytes(d, nodes[i], len)
  {
    hide Ref, RefsApart, MapExact, ByteAt;
    forall p, q | 0 <= p < |nodes| && p != i && 0 <= q < NREF && q != NDIRECT && 0 < Ref(d0, nodes0[p], q) < |d0|
      ensures d'[Ref(d0, nodes0[p], q)] == d0[Ref(d0, nodes0[p], q)]
    {
      assert Ref(d, nodes[p], q) == Ref(d0, nodes0[p], q);
      assert sb.DataStart() <= Ref(d, nodes[p], q);
    }
    forall bn | 0 <= bn < MAXFILE && bn * BSIZE < len
      ensures Ref(d', nodes'[i], Slot(bn)) == Ref(d, nodes[i], Slot(bn)) != 0
      ensures Ref(d, nodes[i], Slot(bn)) < |d| ==> d'[Ref(d, nodes[i], Slot(bn))] == d[Ref(d, nodes[i], Slot(bn))]
    {
      assert Slot(bn) < NREF;
    }
    BytesFrame(d, nodes[i], d', nodes'[i], len);
  }
}
