/**
Exactly which blocks an operation on an inode passes to log_write.
*/
module FsLogs {
  import opened Blocks
  import opened Sets
  import opened FsLayout
  import opened FsState

  /** Block bn of the file has no disk block. */
  predicate Absent(d: Disk, n: Node, bn: nat) {
    Ref(d, n, Slot(bn)) == 0
  }

  /** Logged for block bn of a file that was n0 on d0 and is n on d: the block, and if it is new its free
      map block, the indirect block that names it, and that one's map block if it is new as well. */
  ghost predicate BlockLogs(sb: Super, d0: Disk, n0: Node, d: Disk, n: Node, bn: nat, x: nat) {
    && |n0.addrs| == |n.addrs| == NDIRECT + 1
    && (x == Ref(d, n, Slot(bn)) || (Absent(d0, n0, bn) && NewLogs(sb, n0, d, n, bn, x)))
  }

  ghost predicate NewLogs(sb: Super, n0: Node, d: Disk, n: Node, bn: nat, x: nat)
    requires |n0.addrs| == |n.addrs| == NDIRECT + 1
  {
    || x == MapBlock(sb, Ref(d, n, Slot(bn)))
    || (bn >= NDIRECT && x == n.addrs[NDIRECT])
    || (bn >= NDIRECT && n0.addrs[NDIRECT] == 0 && x == MapBlock(sb, n.addrs[NDIRECT]))
  }

  /** bmap of block bn logs exactly the blocks in l. */
  ghost predicate MapLogs(sb: Super, d0: Disk, n0: Node, d: Disk, n: Node, bn: nat, l: set<nat>) {
    && |n0.addrs| == |n.addrs| == NDIRECT + 1
    && if Absent(d0, n0, bn) then forall x: nat :: x in l <==> x == Ref(d, n, Slot(bn)) || NewLogs(sb, n0, d, n, bn, x)
       else l == {}
  }

  /** The references bmap of block bn leaves alone. */
  ghost predicate MapKeeps(d0: Disk, n0: Node, d: Disk, n: Node, bn: nat) {
    && |n0.addrs| == |n.addrs| == NDIRECT + 1
    && (forall k :: 0 <= k < MAXFILE && k != bn ==> Ref(d, n, Slot(k)) == Ref(d0, n0, Slot(k)))
    && (bn < NDIRECT || n0.addrs[NDIRECT] != 0 ==> n.addrs[NDIRECT] == n0.addrs[NDIRECT])
  }

  ghost predicate LogBlock(sb: Super, d0: Disk, n0: Node, d: Disk, n: Node, lo: nat, hi: nat, x: nat) {
    exists bn :: lo <= bn < hi && BlockLogs(sb, d0, n0, d, n, bn, x)
  }

  /** A write that has done blocks lo up to hi has logged exactly l. */
  ghost predicate LogsTo(sb: Super, d0: Disk, n0: Node, d: Disk, n: Node, lo: nat, hi: nat, l: set<nat>) {
    && |n0.addrs| == |n.addrs| == NDIRECT + 1 && lo <= hi <= MAXFILE
    && (forall bn :: lo <= bn < hi ==> !Absent(d, n, bn))
    && (forall bn :: hi <= bn < MAXFILE ==> Ref(d, n, Slot(bn)) == Ref(d0, n0, Slot(bn)))
    && (n.addrs[NDIRECT] == n0.addrs[NDIRECT] || (n0.addrs[NDIRECT] == 0 && lo < hi && NDIRECT < hi))
    && forall x: nat :: x in l <==> LogBlock(sb, d0, n0, d, n, lo, hi, x)
  }

  lemma LogsNone(sb: Super, d: Disk, n: Node, lo: nat)
    requires |n.addrs| == NDIRECT + 1 && lo <= MAXFILE
    ensures LogsTo(sb, d, n, d, n, lo, lo, {})
  {
    hide Ref, BlockLogs;
  }

  /** With no indirect block no entry is present. */
  lemma NoEntries(d: Disk, n: Node, bn: nat)
    requires |n.addrs| == NDIRECT + 1 && NDIRECT <= bn < MAXFILE
    ensures n.addrs[NDIRECT] == 0 ==> Absent(d, n, bn)
  {
  }

  /** What a block done before has logged stays the same. */
  lemma BlockLogsKept(sb: Super, d0: Disk, n0: Node, d: Disk, n: Node, d1: Disk, n1: Node, bn: nat, x: nat)
    requires Ref(d1, n1, Slot(bn)) == Ref(d, n, Slot(bn)) != 0 && |n1.addrs| == |n.addrs| == |n0.addrs| == NDIRECT + 1 && bn < MAXFILE
    requires n1.addrs[NDIRECT] == n.addrs[NDIRECT] || n.addrs[NDIRECT] == 0
    ensures BlockLogs(sb, d0, n0, d1, n1, bn, x) == BlockLogs(sb, d0, n0, d, n, bn, x)
  {
    if bn >= NDIRECT { NoEntries(d, n, bn); }
  }

  /** One more block: bmap's blocks and then the block itself. */
  lemma LogsAdvance(sb: Super, d0: Disk, n0: Node, d: Disk, n: Node, d1: Disk, n1: Node, lo: nat, bn: nat, l: set<nat>, m: set<nat>)
    requires LogsTo(sb, d0, n0, d, n, lo, bn, l) && bn < MAXFILE && MapLogs(sb, d, n, d1, n1, bn, m) && MapKeeps(d, n, d1, n1, bn) && !Absent(d1, n1, bn)
    ensures LogsTo(sb, d0, n0, d1, n1, lo, bn + 1, l + m + {Ref(d1, n1, Slot(bn))})
  {
    hide Ref, BlockLogs, LogBlock;
    var l1 := l + m + {Ref(d1, n1, Slot(bn))};
    if n0.addrs[NDIRECT] != n1.addrs[NDIRECT] && n.addrs[NDIRECT] == n0.addrs[NDIRECT] {
      assert bn >= NDIRECT && n.addrs[NDIRECT] == 0;
    }
    forall k | lo <= k < bn + 1 ensures !Absent(d1, n1, k) {
      assert k < bn ==> !Absent(d, n, k);
    }
    forall x: nat ensures x in l1 <==> LogBlock(sb, d0, n0, d1, n1, lo, bn + 1, x) {
      OneMore(sb, d0, n0, d, n, d1, n1, lo, bn, x);
      LastLogs(sb, d0, n0, d, n, d1, n1, lo, bn, m, x);
    }
  }

  lemma OneMore(sb: Super, d0: Disk, n0: Node, d: Disk, n: Node, d1: Disk, n1: Node, lo: nat, bn: nat, x: nat)
    requires |n0.addrs| == |n.addrs| == |n1.addrs| == NDIRECT + 1 && lo <= bn < MAXFILE && MapKeeps(d, n, d1, n1, bn)
    requires forall k :: lo <= k < bn ==> !Absent(d, n, k)
    ensures LogBlock(sb, d0, n0, d1, n1, lo, bn + 1, x) <==> LogBlock(sb, d0, n0, d, n, lo, bn, x) || BlockLogs(sb, d0, n0, d1, n1, bn, x)
  {
    hide Ref, BlockLogs;
    forall k | lo <= k < bn ensures BlockLogs(sb, d0, n0, d1, n1, k, x) == BlockLogs(sb, d0, n0, d, n, k, x) {
      assert !Absent(d, n, k);
      BlockLogsKept(sb, d0, n0, d, n, d1, n1, k, x);
    }
  }

  /** What the last block adds, given what was logged before it. */
  lemma LastLogs(sb: Super, d0: Disk, n0: Node, d: Disk, n: Node, d1: Disk, n1: Node, lo: nat, bn: nat, m: set<nat>, x: nat)
    requires |n0.addrs| == |n.addrs| == |n1.addrs| == NDIRECT + 1 && lo <= bn < MAXFILE && MapLogs(sb, d, n, d1, n1, bn, m) && MapKeeps(d, n, d1, n1, bn)
    requires Ref(d, n, Slot(bn)) == Ref(d0, n0, Slot(bn)) && forall k :: lo <= k < bn ==> !Absent(d, n, k)
    requires n.addrs[NDIRECT] == n0.addrs[NDIRECT] || (n0.addrs[NDIRECT] == 0 && lo < bn && NDIRECT < bn)
    ensures x in m || x == Ref(d1, n1, Slot(bn)) ==> BlockLogs(sb, d0, n0, d1, n1, bn, x)
    ensures BlockLogs(sb, d0, n0, d1, n1, bn, x) ==> x in m || x == Ref(d1, n1, Slot(bn)) || LogBlock(sb, d0, n0, d, n, lo, bn, x)
  {
    hide Ref;
    if BlockLogs(sb, d0, n0, d1, n1, bn, x) && x !in m && x != Ref(d1, n1, Slot(bn)) {
      assert Absent(d0, n0, bn) && n0.addrs[NDIRECT] == 0 && n.addrs[NDIRECT] != 0 && x == MapBlock(sb, n1.addrs[NDIRECT]);
      NoEntries(d0, n0, bn - 1);
      assert n1.addrs[NDIRECT] == n.addrs[NDIRECT];
      assert BlockLogs(sb, d0, n0, d, n, bn - 1, x);
    }
  }

  /** The same references log the same blocks. */
  lemma LogsSame(sb: Super, d0: Disk, n0: Node, d: Disk, n: Node, d': Disk, n': Node, lo: nat, hi: nat, l: set<nat>)
    requires LogsTo(sb, d0, n0, d, n, lo, hi, l) && n'.addrs == n.addrs && forall q :: 0 <= q < NREF ==> Ref(d', n', q) == Ref(d, n, q)
    ensures LogsTo(sb, d0, n0, d', n', lo, hi, l)
  {
    hide Ref;
    assert forall bn :: 0 <= bn < MAXFILE ==> Ref(d', n', Slot(bn)) == Ref(d, n, Slot(bn));
    forall bn | lo <= bn < hi ensures !Absent(d', n', bn) {
      assert !Absent(d, n, bn);
    }
    forall x: nat ensures LogBlock(sb, d0, n0, d', n', lo, hi, x) == LogBlock(sb, d0, n0, d, n, lo, hi, x) {
      SameLogBlock(sb, d0, n0, d, n, d', n', lo, hi, x);
    }
  }

  lemma SameLogBlock(sb: Super, d0: Disk, n0: Node, d: Disk, n: Node, d': Disk, n': Node, lo: nat, hi: nat, x: nat)
    requires hi <= MAXFILE && n'.addrs == n.addrs && forall bn :: 0 <= bn < MAXFILE ==> Ref(d', n', Slot(bn)) == Ref(d, n, Slot(bn))
    ensures LogBlock(sb, d0, n0, d', n', lo, hi, x) == LogBlock(sb, d0, n0, d, n, lo, hi, x)
  {
    hide Ref;
    assert forall bn :: lo <= bn < hi ==> BlockLogs(sb, d0, n0, d', n', bn, x) == BlockLogs(sb, d0, n0, d, n, bn, x);
  }

  /** One past the last block of len bytes at off. */
  function LastBlock(off: nat, len: nat): (hi: nat) {
    if len == 0 then off / BSIZE else (off + len + BSIZE - 1) / BSIZE
  }

  predicate Grows(n0: Node, off: nat, len: nat) {
    len > 0 && off + len > n0.size
  }

  /** A writei of len bytes at off has logged exactly l. */
  ghost predicate WriteLogs(sb: Super, d0: Disk, n0: Node, d: Disk, n: Node, inum: nat, off: nat, len: nat, l: set<nat>) {
    && |n0.addrs| == |n.addrs| == NDIRECT + 1 && off / BSIZE <= LastBlock(off, len) <= MAXFILE
    && (forall bn :: off / BSIZE <= bn < LastBlock(off, len) ==> !Absent(d, n, bn))
    && forall x: nat :: x in l <==> LogBlock(sb, d0, n0, d, n, off / BSIZE, LastBlock(off, len), x) || (Grows(n0, off, len) && x == InodeBlock(sb, inum))
  }

  lemma WriteLogsPlain(sb: Super, d0: Disk, n0: Node, d: Disk, n: Node, inum: nat, off: nat, len: nat, l: set<nat>)
    requires LogsTo(sb, d0, n0, d, n, off / BSIZE, LastBlock(off, len), l) && !Grows(n0, off, len)
    ensures WriteLogs(sb, d0, n0, d, n, inum, off, len, l)
  {
    hide Ref, LogBlock;
  }

  lemma WriteLogsGrown(sb: Super, d0: Disk, n0: Node, d: Disk, n: Node, d': Disk, n': Node, inum: nat, off: nat, len: nat, l: set<nat>)
    requires LogsTo(sb, d0, n0, d, n, off / BSIZE, LastBlock(off, len), l) && Grows(n0, off, len)
    requires n'.addrs == n.addrs && forall q :: 0 <= q < NREF ==> Ref(d', n', q) == Ref(d, n, q)
    ensures WriteLogs(sb, d0, n0, d', n', inum, off, len, l + {InodeBlock(sb, inum)})
  {
    hide Ref, LogBlock;
    LogsSame(sb, d0, n0, d, n, d', n', off / BSIZE, LastBlock(off, len), l);
  }

  // ---- bmap ----

  lemma DirectLogs(sb: Super, d0: Disk, n0: Node, d: Disk, n: Node, bn: nat, l: set<nat>)
    requires |n0.addrs| == |n.addrs| == NDIRECT + 1 && bn < NDIRECT && n0.addrs[NDIRECT] == n.addrs[NDIRECT]
    requires l == if n0.addrs[bn] == 0 then {MapBlock(sb, n.addrs[bn]), n.addrs[bn]} else {}
    requires forall q :: 0 <= q < NREF && q != bn ==> Ref(d, n, q) == Ref(d0, n0, q)
    ensures MapLogs(sb, d0, n0, d, n, bn, l) && MapKeeps(d0, n0, d, n, bn)
  {
    DirectRef(d, n, bn);
    DirectRef(d0, n0, bn);
    hide Ref;
  }

  lemma EntryLogs(sb: Super, d0: Disk, n0: Node, d1: Disk, n1: Node, d: Disk, bn: nat, l1: set<nat>, l2: set<nat>)
    requires |n0.addrs| == |n1.addrs| == NDIRECT + 1 && NDIRECT <= bn < MAXFILE && n1.addrs[NDIRECT] != 0
    requires n0.addrs[NDIRECT] != 0 ==> n1.addrs[NDIRECT] == n0.addrs[NDIRECT]
    requires l1 == if n0.addrs[NDIRECT] == 0 then {MapBlock(sb, n1.addrs[NDIRECT]), n1.addrs[NDIRECT]} else {}
    requires l2 == if Ref(d1, n1, bn + 1) == 0 then {MapBlock(sb, Ref(d, n1, bn + 1)), Ref(d, n1, bn + 1), n1.addrs[NDIRECT]} else {}
    requires forall q :: 0 <= q < NREF && q != NDIRECT ==> Ref(d1, n1, q) == Ref(d0, n0, q)
    requires forall q :: 0 <= q < NREF && q != bn + 1 ==> Ref(d, n1, q) == Ref(d1, n1, q)
    ensures MapLogs(sb, d0, n0, d, n1, bn, l1 + l2) && MapKeeps(d0, n0, d, n1, bn)
  {
    NoEntries(d0, n0, bn);
    hide Ref;
  }

  // ---- how many ----

  ghost function DataBlocks(d: Disk, n: Node, lo: nat, hi: nat): (r: set<nat>) {
    if hi <= lo then {} else DataBlocks(d, n, lo, hi - 1) + {Ref(d, n, Slot(hi - 1))}
  }

  lemma {:induction false} DataBlocksAre(d: Disk, n: Node, lo: nat, hi: nat, x: nat)
    ensures x in DataBlocks(d, n, lo, hi) <==> exists bn :: lo <= bn < hi && x == Ref(d, n, Slot(bn))
    decreases hi
  {
    hide Ref;
    if lo < hi {
      DataBlocksAre(d, n, lo, hi - 1, x);
    }
  }

  /** The blocks of a file are different blocks. */
  lemma {:induction false} DataBlocksCount(sb: Super, d: Disk, nodes: seq<Node>, i: nat, lo: nat, hi: nat)
    requires Sound(sb, d, nodes) && i < |nodes| && lo <= hi <= MAXFILE && forall bn :: lo <= bn < hi ==> !Absent(d, nodes[i], bn)
    ensures |DataBlocks(d, nodes[i], lo, hi)| == hi - lo
    decreases hi
  {
    hide Ref, MapExact, RefsInside;
    if lo < hi {
      var x := Ref(d, nodes[i], Slot(hi - 1));
      DataBlocksCount(sb, d, nodes, i, lo, hi - 1);
      DataBlocksAre(d, nodes[i], lo, hi - 1, x);
      assert !Absent(d, nodes[i], hi - 1);
      forall k | lo <= k < hi - 1 ensures Ref(d, nodes[i], Slot(k)) != x {
        assert Slot(k) < NREF && Slot(hi - 1) < NREF && Slot(k) != Slot(hi - 1);
      }
      AddSize(DataBlocks(d, nodes[i], lo, hi - 1), x);
    }
  }

  predicate SomeAbsent(d: Disk, n: Node, lo: nat, hi: nat) {
    exists bn :: lo <= bn < hi && Absent(d, n, bn)
  }

  function One(b: bool): (k: nat) {
    if b then 1 else 0
  }

  function Later(a: nat, b: nat): (m: nat) {
    if a < b then b else a
  }

  function With(s: set<nat>, b: bool, x: nat): (r: set<nat>) {
    if b then s + {x} else s
  }

  lemma WithSize(s: set<nat>, b: bool, x: nat)
    requires b ==> x !in s
    ensures |With(s, b, x)| == |s| + One(b)
  {
    AddSize(s, x);
  }

  /** The blocks of a write, put together, on a disk with one free map block. */
  ghost function Parts(sb: Super, d0: Disk, n0: Node, d: Disk, n: Node, inum: nat, lo: nat, hi: nat, grows: bool): (r: set<nat>)
    requires |n.addrs| == NDIRECT + 1
  {
    With(With(With(DataBlocks(d, n, lo, hi),
                   SomeAbsent(d0, n0, Later(lo, NDIRECT), hi), n.addrs[NDIRECT]),
              SomeAbsent(d0, n0, lo, hi), sb.bmapstart),
         grows, InodeBlock(sb, inum))
  }

  lemma OneMap(sb: Super, b: nat)
    requires sb.size <= BPB && b < sb.size
    ensures MapBlock(sb, b) == sb.bmapstart
  {
  }

  lemma PartsAre(sb: Super, d0: Disk, n0: Node, d: Disk, nodes: seq<Node>, i: nat, lo: nat, hi: nat, grows: bool, x: nat)
    requires Sound(sb, d, nodes) && i < |nodes| && |n0.addrs| == NDIRECT + 1 && sb.size <= BPB && lo <= hi <= MAXFILE
    requires forall bn :: lo <= bn < hi ==> !Absent(d, nodes[i], bn)
    ensures |nodes[i].addrs| == NDIRECT + 1
    ensures x in Parts(sb, d0, n0, d, nodes[i], i, lo, hi, grows) <==> LogBlock(sb, d0, n0, d, nodes[i], lo, hi, x) || (grows && x == InodeBlock(sb, i))
  {
    hide Ref, MapExact, RefsApart, BlockLogs, LogBlock;
    var n := nodes[i];
    DataBlocksAre(d, n, lo, hi, x);
    if LogBlock(sb, d0, n0, d, n, lo, hi, x) {
      var bn := FromBlock(sb, d0, n0, d, nodes, i, lo, hi, x);
    }
    if x in DataBlocks(d, n, lo, hi) {
      var bn :| lo <= bn < hi && x == Ref(d, n, Slot(bn));
      ToBlock(sb, d0, n0, d, nodes, i, lo, hi, bn, x);
    }
    if SomeAbsent(d0, n0, Later(lo, NDIRECT), hi) && x == n.addrs[NDIRECT] {
      var bn :| Later(lo, NDIRECT) <= bn < hi && Absent(d0, n0, bn);
      ToBlock(sb, d0, n0, d, nodes, i, lo, hi, bn, x);
    }
    if SomeAbsent(d0, n0, lo, hi) && x == sb.bmapstart {
      var bn :| lo <= bn < hi && Absent(d0, n0, bn);
      ToBlock(sb, d0, n0, d, nodes, i, lo, hi, bn, x);
    }
  }

  lemma FromBlock(sb: Super, d0: Disk, n0: Node, d: Disk, nodes: seq<Node>, i: nat, lo: nat, hi: nat, x: nat) returns (bn: nat)
    requires Sound(sb, d, nodes) && i < |nodes| && |n0.addrs| == NDIRECT + 1 && sb.size <= BPB && lo <= hi <= MAXFILE
    requires LogBlock(sb, d0, n0, d, nodes[i], lo, hi, x) && forall k :: lo <= k < hi ==> !Absent(d, nodes[i], k)
    ensures lo <= bn < hi && |nodes[i].addrs| == NDIRECT + 1
    ensures x == Ref(d, nodes[i], Slot(bn)) || (Absent(d0, n0, bn) && (x == sb.bmapstart || (bn >= NDIRECT && x == nodes[i].addrs[NDIRECT])))
  {
    hide Ref, MapExact, RefsApart;
    var n := nodes[i];
    bn :| lo <= bn < hi && BlockLogs(sb, d0, n0, d, n, bn, x);
    assert Ref(d, n, Slot(bn)) < sb.size;
    OneMap(sb, Ref(d, n, Slot(bn)));
    if bn >= NDIRECT {
      EntryNamed(sb, d, nodes, i, bn);
      OneMap(sb, n.addrs[NDIRECT]);
    }
  }

  lemma ToBlock(sb: Super, d0: Disk, n0: Node, d: Disk, nodes: seq<Node>, i: nat, lo: nat, hi: nat, bn: nat, x: nat)
    requires Sound(sb, d, nodes) && i < |nodes| && |n0.addrs| == NDIRECT + 1 && sb.size <= BPB && lo <= bn < hi <= MAXFILE && !Absent(d, nodes[i], bn)
    requires |nodes[i].addrs| == NDIRECT + 1
    requires x == Ref(d, nodes[i], Slot(bn)) || (Absent(d0, n0, bn) && (x == sb.bmapstart || (bn >= NDIRECT && x == nodes[i].addrs[NDIRECT])))
    ensures LogBlock(sb, d0, n0, d, nodes[i], lo, hi, x)
  {
    hide Ref, MapExact, RefsApart;
    assert Ref(d, nodes[i], Slot(bn)) < sb.size;
    OneMap(sb, Ref(d, nodes[i], Slot(bn)));
    assert BlockLogs(sb, d0, n0, d, nodes[i], bn, x);
  }

  /** A present entry means a present indirect block, inside the data area and none of the data blocks. */
  lemma EntryNamed(sb: Super, d: Disk, nodes: seq<Node>, i: nat, bn: nat)
    requires Sound(sb, d, nodes) && i < |nodes| && NDIRECT <= bn < MAXFILE && !Absent(d, nodes[i], bn)
    ensures |nodes[i].addrs| == NDIRECT + 1 && sb.DataStart() <= nodes[i].addrs[NDIRECT] < sb.size
    ensures forall k :: 0 <= k < MAXFILE ==> Ref(d, nodes[i], Slot(k)) != nodes[i].addrs[NDIRECT]
  {
    DirectRef(d, nodes[i], NDIRECT);
    NoEntries(d, nodes[i], bn);
  }

  lemma DataApart(sb: Super, d: Disk, nodes: seq<Node>, i: nat, lo: nat, hi: nat, x: nat)
    requires Sound(sb, d, nodes) && i < |nodes| && lo <= hi <= MAXFILE && forall bn :: lo <= bn < hi ==> !Absent(d, nodes[i], bn)
    requires x in DataBlocks(d, nodes[i], lo, hi)
    ensures sb.DataStart() <= x
  {
    hide Ref, MapExact, RefsApart;
    DataBlocksAre(d, nodes[i], lo, hi, x);
    var bn :| lo <= bn < hi && x == Ref(d, nodes[i], Slot(bn));
    assert !Absent(d, nodes[i], bn) && Slot(bn) < NREF;
  }

  /** How many blocks a write of the file's blocks lo up to hi logs: each of them, and one each for the
      indirect block, the free map and the inode if they change. */
  lemma PartsCount(sb: Super, d0: Disk, n0: Node, d: Disk, nodes: seq<Node>, i: nat, lo: nat, hi: nat, grows: bool)
    requires Sound(sb, d, nodes) && i < |nodes| && lo <= hi <= MAXFILE && forall bn :: lo <= bn < hi ==> !Absent(d, nodes[i], bn)
    ensures |nodes[i].addrs| == NDIRECT + 1
    ensures |Parts(sb, d0, n0, d, nodes[i], i, lo, hi, grows)|
         == hi - lo + One(SomeAbsent(d0, n0, Later(lo, NDIRECT), hi)) + One(SomeAbsent(d0, n0, lo, hi)) + One(grows)
  {
    hide Ref, MapExact, RefsApart, RefsInside, DataBlocks, SomeAbsent;
    var n := nodes[i];
    InodeBlockBelow(sb, d, i);
    DataBlocksCount(sb, d, nodes, i, lo, hi);
    forall x | x in DataBlocks(d, n, lo, hi) ensures sb.DataStart() <= x {
      DataApart(sb, d, nodes, i, lo, hi, x);
    }
    IndirectApart(sb, d0, n0, d, nodes, i, lo, hi);
    var a, b := SomeAbsent(d0, n0, Later(lo, NDIRECT), hi), SomeAbsent(d0, n0, lo, hi);
    var s := DataBlocks(d, n, lo, hi);
    WithSize(s, a, n.addrs[NDIRECT]);
    WithSize(With(s, a, n.addrs[NDIRECT]), b, sb.bmapstart);
    WithSize(With(With(s, a, n.addrs[NDIRECT]), b, sb.bmapstart), grows, InodeBlock(sb, i));
  }

  lemma IndirectApart(sb: Super, d0: Disk, n0: Node, d: Disk, nodes: seq<Node>, i: nat, lo: nat, hi: nat)
    requires Sound(sb, d, nodes) && i < |nodes| && lo <= hi <= MAXFILE && forall bn :: lo <= bn < hi ==> !Absent(d, nodes[i], bn)
    ensures |nodes[i].addrs| == NDIRECT + 1
    ensures SomeAbsent(d0, n0, Later(lo, NDIRECT), hi) ==> nodes[i].addrs[NDIRECT] !in DataBlocks(d, nodes[i], lo, hi) && sb.DataStart() <= nodes[i].addrs[NDIRECT]
  {
    hide Ref, MapExact, RefsApart, RefsInside, DataBlocks;
    if SomeAbsent(d0, n0, Later(lo, NDIRECT), hi) {
      var bn :| Later(lo, NDIRECT) <= bn < hi && Absent(d0, n0, bn);
      assert !Absent(d, nodes[i], bn);
      EntryNamed(sb, d, nodes, i, bn);
      DataBlocksAre(d, nodes[i], lo, hi, nodes[i].addrs[NDIRECT]);
    }
  }
}
