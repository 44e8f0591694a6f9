/**
The block allocator and inode layer of fs.c over the plain block store that the
buffer cache stands for: bread reads store, log_write replaces a block of it.
*/
module Fs {
  import opened Blocks
  import opened FsLayout
  import opened FsState
  import opened FsContent
  import opened FsLogs
  import opened FsTrunc
  import opened Journal

  const T_DEV: nat := 3
  const NDEV: nat := 10

  datatype Found = None | Some(b: nat)
  datatype Mapping = At(b: nat) | OutOfBlocks | OutOfRange

  /** A byte count, -1, a call handed to a device driver, or balloc's panic. */
  datatype IoResult = Done(n: nat) | Refused | ToDevice | DiskFull

  /** Every block is marked in use. */
  ghost predicate Full(sb: Super, d: Disk) {
    sb.Fits(d) && forall x :: 0 <= x < sb.size ==> Used(sb, d, x)
  }

  /** An in-memory inode, locked by its user. */
  class Inode {
    const inum: nat
    var typ: nat
    var major: nat
    var minor: nat
    var nlink: nat
    var size: nat
    const addrs: array<nat>

    constructor (inum: nat, n: Node)
      requires n.Ok()
      ensures this.inum == inum && addrs.Length == NDIRECT + 1 && fresh(addrs) && AsNode() == n
    {
      this.inum := inum;
      typ, major, minor, nlink, size := n.typ, n.major, n.minor, n.nlink, n.size;
      addrs := new nat[NDIRECT + 1](i requires 0 <= i <= NDIRECT => n.addrs[i]);
    }

    ghost function AsNode(): (n: Node)
      reads this, addrs
    {
      Node(typ, major, minor, nlink, size, addrs[..])
    }
  }

  class FileSystem {
    const sb: Super
    var store: Disk
    /** Every inode, the locked ones as they are in memory. */
    ghost var nodes: seq<Node>
    /** The running operation's number, and every log_write so far. */
    ghost var op: nat
    ghost var journal: seq<Write>

    /** Mount a store that holds the given inodes. */
    constructor (sb: Super, image: Disk, ghost nodes: seq<Node>)
      requires Sound(sb, image, nodes) && Dense(image, nodes) && SyncedBut(sb, image, nodes, -1)
      ensures Valid() && this.sb == sb && store == image && this.nodes == nodes && journal == []
    {
      this.sb, store, this.nodes, journal, op := sb, image, nodes, [], 0;
    }

    /** The invariant between operations. */
    ghost predicate Valid()
      reads this
    {
      Sound(sb, store, nodes) && Dense(store, nodes) && SyncedBut(sb, store, nodes, -1)
    }

    /** ip is the locked copy of its inode. */
    ghost predicate Holds(ip: Inode)
      reads this, ip, ip.addrs
    {
      ip.inum < |nodes| && ip.addrs.Length == NDIRECT + 1 && ip.AsNode() == nodes[ip.inum]
    }

    /** balloc's search: the lowest free block. */
    method FindFree() returns (r: Found)
      requires sb.Fits(store)
      ensures r.None? ==> Full(sb, store)
      ensures r.Some? ==> r.b < sb.size && !Used(sb, store, r.b) && forall x :: 0 <= x < r.b ==> Used(sb, store, x)
    {
      hide Bit;
      var b := 0;
      while b < sb.size
        invariant 0 <= b && b % BPB == 0
        invariant forall x :: 0 <= x < b && x < sb.size ==> Used(sb, store, x)
      {
        var bp, bi := b / BPB + sb.bmapstart, 0;
        while bi < BPB && b + bi < sb.size
          invariant 0 <= bi <= BPB
          invariant forall x :: 0 <= x < b + bi && x < sb.size ==> Used(sb, store, x)
        {
          assert (b + bi) / BPB == b / BPB && (b + bi) % BPB == bi;
          if !Bit(store[bp], bi) {
            return Some(b + bi);
          }
          bi := bi + 1;
        }
        b := b + BPB;
      }
      return None;
    }

    /** A block is modified and passed to log_write. */
    method LogWrite(b: nat, data: Block)
      requires b < |store|
      modifies this`store, this`journal
      ensures store == old(store)[b := data] && Extends(old(journal), old(store), journal, store)
      ensures Logged(Since(old(journal), journal)) == {b}
    {
      hide Logged, Extends;
      ExtendsOne(journal, store, Write(op, b, data));
      store := store[b := data];
      journal := journal + [Write(op, b, data)];
    }

    /** Take the lowest free block, marked and zeroed. */
    method Balloc() returns (r: Found)
      requires sb.Fits(store)
      modifies this`store, this`journal
      ensures r.None? ==> Full(sb, store) && store == old(store) && journal == old(journal)
      ensures r.Some? ==>
                && r.b < sb.size && !Used(sb, old(store), r.b)
                && (forall x :: 0 <= x < r.b ==> Used(sb, old(store), x))
                && store == Marked(sb, old(store), r.b)
                && Extends(old(journal), old(store), journal, store)
                && Logged(Since(old(journal), journal)) == {MapBlock(sb, r.b), r.b}
    {
      hide Bit, MarkBit, Used, Extends, Logged;
      ghost var d0, j0 := store, journal;
      r := FindFree();
      if r.Some? {
        var bp := MapBlock(sb, r.b);
        LogWrite(bp, MarkBit(store[bp], r.b % BPB));
        ghost var d1, j1 := store, journal;
        LogWrite(r.b, ZeroBlock());
        ExtendsTwice(j0, d0, j1, d1, journal, store);
      }
    }

    /** Clear a block's bit; panics when it is already clear. */
    method Bfree(b: nat) returns (ok: bool)
      requires sb.Fits(store) && b < sb.size
      modifies this`store, this`journal
      ensures ok <==> Used(sb, old(store), b)
      ensures !ok ==> store == old(store) && journal == old(journal)
      ensures ok ==>
                && store == old(store)[MapBlock(sb, b) := FreeBit(old(store)[MapBlock(sb, b)], b % BPB)]
                && Extends(old(journal), old(store), journal, store)
                && Logged(Since(old(journal), journal)) == {MapBlock(sb, b)}
    {
      hide Extends, Logged;
      var bp, bi := b / BPB + sb.bmapstart, b % BPB;
      if !Bit(store[bp], bi) {
        return false;
      }
      LogWrite(bp, FreeBit(store[bp], bi));
      return true;
    }

    /** bmap's first half: the direct or the indirect block in addrs[j], allocated if absent. */
    method MapDirect(ip: Inode, j: nat) returns (r: Found)
      requires Sound(sb, store, nodes) && Holds(ip) && j <= NDIRECT
      modifies this`store, this`nodes, this`journal, ip.addrs
      ensures |store| == |old(store)|
      ensures r.None? ==> store == old(store) && old(nodes[ip.inum].addrs[j]) == 0 && Full(sb, store)
      ensures r.Some? ==>
                && Sound(sb, store, nodes) && Holds(ip) && r.b != 0 && nodes[ip.inum].addrs[j] == r.b
                && Grown(old(store), old(nodes), store, nodes, ip.inum)
                && (old(nodes[ip.inum].addrs[j]) != 0 ==> store == old(store) && nodes == old(nodes) && journal == old(journal))
                && InodesKept(sb, old(store), store)
                && Extends(old(journal), old(store), journal, store)
                && Logged(Since(old(journal), journal)) == (if old(nodes[ip.inum].addrs[j]) == 0 then {MapBlock(sb, r.b), r.b} else {})
                && |nodes[ip.inum].addrs| == NDIRECT + 1 && (forall k :: 0 <= k <= NDIRECT && k != j ==> nodes[ip.inum].addrs[k] == old(nodes[ip.inum].addrs[k]))
                && (forall q :: 0 <= q < NREF && q != j ==> Ref(store, nodes[ip.inum], q) == old(Ref(store, nodes[ip.inum], q)))
    {
      hide Used, Ref, Sound, RefSet, Grown, Owned, Marked, Extends, Logged;
      ghost var i, d0, nodes0 := ip.inum, store, nodes;
      ExtendsNone(journal, store);
      SoundFits(sb, d0, nodes0, i);
      var addr := ip.addrs[j];
      if addr != 0 {
        GrownReflexive(d0, nodes0, i);
        return Some(addr);
      }
      r := Balloc();
      if r.None? {
        return;
      }
      TakeDirect(sb, d0, nodes0, i, j, r.b);
      DirectGrows(sb, d0, nodes0, i, j, r.b);
      MarkedFrame(sb, d0, r.b);
      ip.addrs[j] := r.b;
      nodes := nodes0[i := WithAddr(nodes0[i], j, r.b)];
      RefSetRest(d0, nodes0, store, nodes, i, j, r.b);
    }

    /** bmap's second half: the entry for reference j of the indirect block, allocated if absent. */
    method MapEntry(ip: Inode, j: nat) returns (r: Found)
      requires Sound(sb, store, nodes) && Holds(ip) && NDIRECT < j < NREF && nodes[ip.inum].addrs[NDIRECT] != 0
      modifies this`store, this`journal
      ensures |store| == |old(store)|
      ensures r.None? ==> store == old(store) && Ref(store, nodes[ip.inum], j) == 0 && Full(sb, store)
      ensures r.Some? ==>
                && Sound(sb, store, nodes) && r.b != 0 && Ref(store, nodes[ip.inum], j) == r.b
                && Grown(old(store), nodes, store, nodes, ip.inum)
                && (Ref(old(store), nodes[ip.inum], j) != 0 ==> store == old(store) && journal == old(journal))
                && InodesKept(sb, old(store), store)
                && Extends(old(journal), old(store), journal, store)
                && Logged(Since(old(journal), journal)) == (if Ref(old(store), nodes[ip.inum], j) == 0 then {MapBlock(sb, r.b), r.b, nodes[ip.inum].addrs[NDIRECT]} else {})
                && (forall q :: 0 <= q < NREF && q != j ==> Ref(store, nodes[ip.inum], q) == Ref(old(store), nodes[ip.inum], q))
    {
      hide Used, Sound, RefSet, Grown, Owned, Marked, Word, SetWord, Extends, Logged;
      ghost var i, d0, j0 := ip.inum, store, journal;
      ExtendsNone(journal, store);
      var ind, k := ip.addrs[NDIRECT], j - NDIRECT - 1;
      IndirectInside(sb, d0, nodes, i);
      var addr := Word(store[ind], k);
      assert addr == Ref(d0, nodes[i], j);
      if addr != 0 {
        GrownReflexive(d0, nodes, i);
        return Some(addr);
      }
      r := Balloc();
      if r.None? {
        return;
      }
      TakeEntry(sb, d0, nodes, i, j, r.b);
      EntryGrows(sb, d0, nodes, i, j, r.b);
      MarkedFrame(sb, d0, r.b);
      ghost var d1, j1 := store, journal;
      LogWrite(ind, SetWord(store[ind], k, r.b));
      ExtendsTwice(j0, d0, j1, d1, journal, store);
      RefSetRest(d0, nodes, store, nodes, i, j, r.b);
    }

    /** The disk block of block bn of the file, allocating what is absent. */
    method Bmap(ip: Inode, bn: nat) returns (r: Mapping)
      requires Sound(sb, store, nodes) && Holds(ip)
      modifies this`store, this`nodes, this`journal, ip.addrs
      ensures r.OutOfRange? <==> bn >= MAXFILE
      ensures r.OutOfBlocks? ==> Ref(old(store), old(nodes)[ip.inum], Slot(bn)) == 0 && Full(sb, store)
      ensures r.At? ==>
                && Sound(sb, store, nodes) && Holds(ip) && r.b != 0 && Ref(store, nodes[ip.inum], Slot(bn)) == r.b
                && Grown(old(store), old(nodes), store, nodes, ip.inum)
                && (Ref(old(store), old(nodes)[ip.inum], Slot(bn)) != 0 ==> store == old(store) && nodes == old(nodes) && journal == old(journal))
                && InodesKept(sb, old(store), store)
                && Extends(old(journal), old(store), journal, store)
                && MapLogs(sb, old(store), old(nodes)[ip.inum], store, nodes[ip.inum], bn, Logged(Since(old(journal), journal)))
                && MapKeeps(old(store), old(nodes)[ip.inum], store, nodes[ip.inum], bn)
    {
      hide Used, Sound, Grown, Word, Ref, MapLogs, MapKeeps, Extends, Logged;
      ghost var i, d0, nodes0, j0 := ip.inum, store, nodes, journal;
      SoundFits(sb, d0, nodes0, i);
      if bn < NDIRECT {
        DirectRef(d0, nodes0[i], bn);
        var f := MapDirect(ip, bn);
        if f.None? {
          return OutOfBlocks;
        }
        SoundFits(sb, store, nodes, i);
        DirectRef(store, nodes[i], bn);
        DirectLogs(sb, d0, nodes0[i], store, nodes[i], bn, Logged(Since(j0, journal)));
        return At(f.b);
      }
      if bn - NDIRECT < NINDIRECT {
        EntryAbsent(d0, nodes0[i], bn + 1);
        var f := MapDirect(ip, NDIRECT);
        if f.None? {
          return OutOfBlocks;
        }
        ghost var d1, nodes1, j1 := store, nodes, journal;
        f := MapEntry(ip, bn + 1);
        if f.None? {
          return OutOfBlocks;
        }
        GrownTwice(d0, nodes0, d1, nodes1, store, nodes, i);
        ExtendsTwice(j0, d0, j1, d1, journal, store);
        EntryLogs(sb, d0, nodes0[i], d1, nodes1[i], store, bn, Logged(Since(j0, j1)), Logged(Since(j1, journal)));
        return At(f.b);
      }
      return OutOfRange;
    }

    /** Copy the in-memory inode to its place on disk. */
    method Iupdate(ip: Inode)
      requires sb.Fits(store) && ip.inum < sb.ninodes && ip.addrs.Length == NDIRECT + 1 && ip.AsNode().Ok()
      modifies this`store, this`journal
      ensures store == WithNode(sb, old(store), ip.inum, ip.AsNode())
      ensures Extends(old(journal), old(store), journal, store) && Logged(Since(old(journal), journal)) == {InodeBlock(sb, ip.inum)}
    {
      hide Word, SetWord, Extends, Logged;
      var b, k := InodeBlock(sb, ip.inum), ip.inum % IPB;
      ghost var n := ip.AsNode();
      var bp := store[b];
      bp := SetWord(bp, NodeWord(k, 0), ip.typ + 0x1_0000 * ip.major);
      bp := SetWord(bp, NodeWord(k, 1), ip.minor + 0x1_0000 * ip.nlink);
      bp := SetWord(bp, NodeWord(k, 2), ip.size);
      ghost var b2 := bp;
      var i := 0;
      while i < NDIRECT + 1
        invariant 0 <= i <= NDIRECT + 1 && bp == PutAddrs(b2, k, n, i)
      {
        assert n.addrs[i] == ip.addrs[i];
        bp := SetWord(bp, NodeWord(k, 3 + i), ip.addrs[i]);
        i := i + 1;
      }
      LogWrite(b, bp);
    }

    /** One round of writei's loop: map the block at off and patch it. */
    method WriteRound(ip: Inode, off: nat, more: seq<byte>, ghost d0: Disk, ghost nodes0: seq<Node>, ghost off0: nat, ghost s: seq<byte>, ghost j0: seq<Write>) returns (ok: bool)
      requires Holds(ip) && ip.inum < |nodes0| && Writing(sb, d0, nodes0, store, nodes, ip.inum, off0, s) && off == off0 + |s|
      requires 0 < |more| && off % BSIZE + |more| <= BSIZE && off + |more| <= MAXFILE * BSIZE
      requires Extends(j0, d0, journal, store) && LogsTo(sb, d0, nodes0[ip.inum], store, nodes[ip.inum], off0 / BSIZE, off / BSIZE, Logged(Since(j0, journal)))
      modifies this`store, this`nodes, this`journal, ip.addrs
      ensures !ok ==> Full(sb, store)
      ensures ok ==>
                && Holds(ip) && Writing(sb, d0, nodes0, store, nodes, ip.inum, off0, s + more)
                && Extends(j0, d0, journal, store) && LogsTo(sb, d0, nodes0[ip.inum], store, nodes[ip.inum], off0 / BSIZE, off / BSIZE + 1, Logged(Since(j0, journal)))
    {
      hide Sound, Grown, Writing, LogsTo, MapLogs, MapKeeps, Ref, Slot, Used, Extends, Logged;
      ghost var i, bn, d, nodes', j := ip.inum, off / BSIZE, store, nodes, journal;
      WritingSound(sb, d0, nodes0, d, nodes', i, off0, s);
      assert bn < MAXFILE;
      var m := Bmap(ip, off / BSIZE);
      if !m.At? {
        return false;
      }
      ghost var d1, j1 := store, journal;
      WritingAdvances(sb, d0, nodes0, d, nodes', i, off0, s, d1, nodes, m.b, more);
      LogsAdvance(sb, d0, nodes0[i], d, nodes'[i], d1, nodes[i], off0 / BSIZE, bn, Logged(Since(j0, j)), Logged(Since(j, j1)));
      ExtendsTwice(j0, d0, j, d, j1, d1);
      LogWrite(m.b, Patch(store[m.b], off % BSIZE, more));
      ExtendsTwice(j0, d0, j1, d1, journal, store);
      PatchKeepsRefs(sb, d1, nodes, i, bn, store[m.b]);
      LogsSame(sb, d0, nodes0[i], d1, nodes[i], store, nodes[i], off0 / BSIZE, bn + 1, Logged(Since(j0, journal)));
      ok := true;
    }

    /** writei's loop. */
    method WriteRounds(ip: Inode, src: seq<byte>, off: nat) returns (ok: bool)
      requires Valid() && Holds(ip) && off <= ip.size && off + |src| <= MAXFILE * BSIZE
      modifies this`store, this`nodes, this`journal, ip.addrs
      ensures !ok ==> Full(sb, store)
      ensures ok ==>
                && Holds(ip) && ip.inum < |old(nodes)| && Writing(sb, old(store), old(nodes), store, nodes, ip.inum, off, src)
                && Extends(old(journal), old(store), journal, store)
                && LogsTo(sb, old(store), old(nodes)[ip.inum], store, nodes[ip.inum], off / BSIZE, LastBlock(off, |src|), Logged(Since(old(journal), journal)))
    {
      hide Sound, Writing, LogsTo, LastBlock, Aligned, Piece, Mapped, Dense, SyncedBut, Used, Extends, Logged;
      ghost var i, d0, nodes0, j0 := ip.inum, store, nodes, journal;
      SoundFits(sb, d0, nodes0, i);
      DenseAt(d0, nodes0, i);
      WritingStarts(sb, d0, nodes0, i, off);
      ExtendsNone(j0, d0);
      LogsNone(sb, d0, nodes0[i], off / BSIZE);
      RoundBlocks(off, 0, 1);
      var n, tot, at := |src|, 0, off;
      while tot < n
        invariant 0 <= tot <= n && at == off + tot && Holds(ip) && ip.inum < |nodes0|
        invariant Writing(sb, d0, nodes0, store, nodes, i, off, src[..tot])
        invariant tot == 0 || tot == n || Aligned(at)
        invariant Extends(j0, d0, journal, store) && LogsTo(sb, d0, nodes0[i], store, nodes[i], off / BSIZE, LastBlock(off, tot), Logged(Since(j0, journal)))
      {
        var m := Piece(at, n - tot);
        ghost var s := src[..tot];
        RoundBlocks(off, tot, m);
        ok := WriteRound(ip, at, src[tot..tot + m], d0, nodes0, off, s, j0);
        if !ok {
          return false;
        }
        assert s + src[tot..tot + m] == src[..tot + m];
        tot, at := tot + m, at + m;
      }
      assert src[..n] == src;
      ok := true;
    }

    /** writei.  devs are the device numbers whose driver can write. */
    method Writei(ip: Inode, src: seq<byte>, off: nat, devs: set<nat>) returns (r: IoResult)
      requires Valid() && Holds(ip) && off < WORD && |src| < WORD
      modifies this`store, this`nodes, this`journal, ip, ip.addrs
      ensures r.ToDevice? <==> old(ip.typ) == T_DEV && old(ip.major) < NDEV && old(ip.major) in devs
      ensures r.Refused? <==>
                if old(ip.typ) == T_DEV then old(ip.major) >= NDEV || old(ip.major) !in devs
                else off > old(ip.size) || off + |src| >= WORD || off + |src| > MAXFILE * BSIZE
      ensures r.ToDevice? || r.Refused? ==> store == old(store) && nodes == old(nodes) && journal == old(journal) && Holds(ip)
      ensures r.DiskFull? ==> Full(sb, store)
      ensures r.Done? ==>
                && r.n == |src| && Valid() && Holds(ip)
                && Wrote(sb, old(store), old(nodes), store, nodes, ip.inum, off, src)
                && Extends(old(journal), old(store), journal, store)
                && WriteLogs(sb, old(store), old(nodes)[ip.inum], store, nodes[ip.inum], ip.inum, off, |src|, Logged(Since(old(journal), journal)))
    {
      hide Sound, Writing, LogsTo, WriteLogs, LastBlock, Wrote, Mapped, Dense, SyncedBut, Used, Extends, Logged;
      ghost var i, d0, nodes0, j0 := ip.inum, store, nodes, journal;
      SoundFits(sb, d0, nodes0, i);
      if ip.typ == T_DEV {
        if ip.major >= NDEV || ip.major !in devs {
          return Refused;
        }
        return ToDevice;
      }
      var n := |src|;
      if off > ip.size || (off + n) % WORD < off {
        return Refused;
      }
      if off + n > MAXFILE * BSIZE {
        return Refused;
      }
      var ok := WriteRounds(ip, src, off);
      if !ok {
        return DiskFull;
      }
      var at := off + n;
      if n > 0 && at > ip.size {
        GrowToEnd(ip, at, d0, nodes0, off, src, j0);
      } else {
        WritingSound(sb, d0, nodes0, store, nodes, i, off, src);
        WroteInside(sb, d0, nodes0, store, nodes, i, off, src);
        WroteValid(sb, d0, nodes0, store, nodes, i, off, src);
        WriteLogsPlain(sb, d0, nodes0[i], store, nodes[i], i, off, n, Logged(Since(j0, journal)));
      }
      return Done(n);
    }

    /** writei's epilogue when the write went past the end. */
    method GrowToEnd(ip: Inode, at: nat, ghost d0: Disk, ghost nodes0: seq<Node>, ghost off: nat, ghost src: seq<byte>, ghost j0: seq<Write>)
      requires Holds(ip) && ip.inum < |nodes0| && Writing(sb, d0, nodes0, store, nodes, ip.inum, off, src)
      requires sb.Fits(d0) && Dense(d0, nodes0) && SyncedBut(sb, d0, nodes0, -1) && nodes0[ip.inum].size < at == off + |src| < WORD && 0 < |src|
      requires Extends(j0, d0, journal, store) && LogsTo(sb, d0, nodes0[ip.inum], store, nodes[ip.inum], off / BSIZE, LastBlock(off, |src|), Logged(Since(j0, journal)))
      modifies this`store, this`nodes, this`journal, ip`size
      ensures Valid() && Holds(ip) && Wrote(sb, d0, nodes0, store, nodes, ip.inum, off, src)
      ensures Extends(j0, d0, journal, store) && WriteLogs(sb, d0, nodes0[ip.inum], store, nodes[ip.inum], ip.inum, off, |src|, Logged(Since(j0, journal)))
    {
      hide Sound, Writing, LogsTo, WriteLogs, Wrote, Mapped, SyncedBut, Dense, WithNode, Extends, Logged, Ref;
      ghost var i, d, n1, j := ip.inum, store, nodes, journal;
      WritingSound(sb, d0, nodes0, d, n1, i, off, src);
      SoundFits(sb, d, n1, i);
      ip.size := at;
      nodes := n1[i := n1[i].(size := at)];
      Iupdate(ip);
      WroteBeyond(sb, d0, nodes0, d, n1, i, off, src, nodes, store);
      WroteValid(sb, d0, nodes0, store, nodes, i, off, src);
      ExtendsTwice(j0, d0, j, d, journal, store);
      ResizeRefs(sb, d, n1, i, at, store);
      WriteLogsGrown(sb, d0, nodes0[i], d, n1[i], store, nodes[i], i, off, |src|, Logged(Since(j0, j)));
    }

    /** One round of readi's loop; the block is present, so bmap allocates nothing. */
    method ReadRound(ip: Inode, off: nat, m: nat) returns (data: seq<byte>)
      requires Valid() && Holds(ip) && 0 < m && off % BSIZE + m <= BSIZE && off + m <= nodes[ip.inum].size
      modifies this`store, this`nodes, this`journal, ip.addrs
      ensures store == old(store) && nodes == old(nodes) && journal == old(journal) && Holds(ip)
      ensures data == Content(store, nodes[ip.inum])[off..off + m]
    {
      hide Sound, Grown, MapLogs, MapKeeps, Ref, Slot, Used, Extends, Logged;
      ghost var i := ip.inum;
      BlockOf(off, nodes[i].size);
      assert Ref(store, nodes[i], Slot(off / BSIZE)) != 0;
      SlotInside(sb, store, nodes, i, off / BSIZE);
      var b := Bmap(ip, off / BSIZE);
      var o := off % BSIZE;
      data := store[b.b][o..o + m];
      forall k | 0 <= k < m ensures data[k] == Content(store, nodes[i])[off..off + m][k] {
        SameBlock(off, k, m);
        assert Content(store, nodes[i])[off + k] == ByteAt(store, nodes[i], off + k);
      }
    }

    /** readi.  devs are the device numbers whose driver can read. */
    method Readi(ip: Inode, off: nat, count: nat, devs: set<nat>) returns (r: IoResult, data: seq<byte>)
      requires Valid() && Holds(ip) && off < WORD && count < WORD
      modifies this`store, this`nodes, this`journal, ip.addrs
      ensures store == old(store) && nodes == old(nodes) && journal == old(journal) && Holds(ip) && !r.DiskFull?
      ensures r.ToDevice? <==> ip.typ == T_DEV && ip.major < NDEV && ip.major in devs
      ensures r.Refused? <==> if ip.typ == T_DEV then ip.major >= NDEV || ip.major !in devs else off > ip.size || off + count >= WORD
      ensures r.Done? ==>
                && r.n == (if off + count > ip.size then ip.size - off else count)
                && data == Content(store, nodes[ip.inum])[off..off + r.n]
    {
      hide Sound, Dense, SyncedBut, Content;
      data := [];
      if ip.typ == T_DEV {
        if ip.major >= NDEV || ip.major !in devs {
          return Refused, [];
        }
        return ToDevice, [];
      }
      if off > ip.size || (off + count) % WORD < off {
        return Refused, [];
      }
      var n := count;
      if off + n > ip.size {
        n := ip.size - off;
      }
      ghost var c := Content(store, nodes[ip.inum]);
      var tot, at := 0, off;
      while tot < n
        invariant 0 <= tot <= n && at == off + tot && Holds(ip) && ip.inum < |nodes|
        invariant store == old(store) && nodes == old(nodes) && journal == old(journal)
        invariant data == c[off..at]
      {
        var m := Piece(at, n - tot);
        var piece := ReadRound(ip, at, m);
        assert c[off..at] + c[at..at + m] == c[off..at + m];
        data := data + piece;
        tot, at := tot + m, at + m;
      }
      return Done(n), data;
    }

    /** A write and then a read of the same file, at any two ranges: the read sees the write spliced into what
        the file held before, and reading the written range gives back what was written. */
    method WriteThenRead(ip: Inode, src: seq<byte>, off: nat, at: nat, count: nat) returns (w: IoResult, r: IoResult, data: seq<byte>)
      requires Valid() && Holds(ip) && ip.typ != T_DEV && off < WORD && |src| < WORD && at < WORD && count < WORD
      modifies this`store, this`nodes, this`journal, ip, ip.addrs
      ensures w.Refused? ==> r.Refused? && data == []
      ensures w.Done? ==>
                off <= |old(Content(store, nodes[ip.inum]))| &&
                var c := Splice(old(Content(store, nodes[ip.inum])), off, src);
                && (r.Refused? <==> at > |c| || at + count >= WORD)
                && (r.Done? ==> r.n == (if at + count > |c| then |c| - at else count) && data == c[at..at + r.n])
      ensures w.Done? && at == off && count == |src| ==> r.Done? && data == src
    {
      hide Sound, Dense, SyncedBut, Content, WriteLogs, Extends, Splice;
      ghost var c := Content(store, nodes[ip.inum]);
      w := Writei(ip, src, off, {});
      if !w.Done? {
        return w, Refused, [];
      }
      ContentSize(store, nodes[ip.inum]);
      r, data := Readi(ip, at, count, {});
      SpliceRange(c, off, src);
    }

    /** One bfree of itrunc; the block is still marked, so it cannot panic. */
    method FreeTurn(b: nat, ghost d0: Disk, ghost i: nat, ghost k: nat) returns (ok: bool)
      requires Sound(sb, d0, nodes) && i < |nodes| && k < NREF && Freeing(sb, d0, nodes[i], k, store) && b == Ref(d0, nodes[i], Turn(k)) != 0
      modifies this`store, this`journal
      ensures ok && Freeing(sb, d0, nodes[i], k + 1, store) && Extends(old(journal), old(store), journal, store)
    {
      hide Sound, Freeing, Ref, Turn, Used, FreeBit, Extends, Logged;
      TurnFrees(sb, d0, nodes, i, k, store);
      FreeingFits(sb, d0, nodes[i], k, store);
      ok := Bfree(b);
    }

    /** itrunc's first loop. */
    method FreeDirect(ip: Inode) returns (ok: bool)
      requires Sound(sb, store, nodes) && Holds(ip)
      modifies this`store, this`journal, ip.addrs
      ensures ok && Freeing(sb, old(store), nodes[ip.inum], NDIRECT, store) && Extends(old(journal), old(store), journal, store)
      ensures ip.addrs[NDIRECT] == nodes[ip.inum].addrs[NDIRECT] && forall j :: 0 <= j < NDIRECT ==> ip.addrs[j] == 0
    {
      hide Sound, Freeing, Ref, Used, Extends;
      ghost var i, d0, j0 := ip.inum, store, journal;
      SoundFits(sb, d0, nodes, i);
      FreeingStarts(sb, d0, nodes[i]);
      ExtendsNone(j0, d0);
      ok := true;
      var j := 0;
      while j < NDIRECT
        invariant 0 <= j <= NDIRECT && ok && Freeing(sb, d0, nodes[i], j, store) && Extends(j0, d0, journal, store)
        invariant forall k :: 0 <= k < j ==> ip.addrs[k] == 0
        invariant forall k :: j <= k <= NDIRECT ==> ip.addrs[k] == nodes[i].addrs[k]
      {
        DirectRef(d0, nodes[i], j);
        if ip.addrs[j] != 0 {
          ghost var d1, j1 := store, journal;
          ok := FreeTurn(ip.addrs[j], d0, i, j);
          ExtendsTwice(j0, d0, j1, d1, journal, store);
          ip.addrs[j] := 0;
        } else {
          TurnAbsent(sb, d0, nodes[i], j, store);
        }
        j := j + 1;
      }
    }

    /** itrunc's second loop and the indirect block itself. */
    method FreeIndirect(ind: nat, ghost d0: Disk, ghost i: nat) returns (ok: bool)
      requires Sound(sb, d0, nodes) && i < |nodes| && Freeing(sb, d0, nodes[i], NDIRECT, store) && ind == nodes[i].addrs[NDIRECT] != 0
      modifies this`store, this`journal
      ensures ok && Freeing(sb, d0, nodes[i], NREF, store) && Extends(old(journal), old(store), journal, store)
    {
      hide Sound, Freeing, Used, Word, Extends;
      ghost var e0, j0 := store, journal;
      ExtendsNone(j0, e0);
      IndirectInside(sb, d0, nodes, i);
      IndirectUntouched(sb, d0, nodes[i], NDIRECT, store);
      var a := store[ind];
      ok := true;
      var j := 0;
      while j < NINDIRECT
        invariant 0 <= j <= NINDIRECT && ok && Freeing(sb, d0, nodes[i], NDIRECT + j, store) && Extends(j0, e0, journal, store)
      {
        assert Word(a, j) == Ref(d0, nodes[i], Turn(NDIRECT + j));
        if Word(a, j) != 0 {
          ghost var d1, j1 := store, journal;
          ok := FreeTurn(Word(a, j), d0, i, NDIRECT + j);
          ExtendsTwice(j0, e0, j1, d1, journal, store);
        } else {
          TurnAbsent(sb, d0, nodes[i], NDIRECT + j, store);
        }
        j := j + 1;
      }
      DirectRef(d0, nodes[i], NDIRECT);
      ghost var d2, j2 := store, journal;
      ok := FreeTurn(ind, d0, i, NREF - 1);
      ExtendsTwice(j0, e0, j2, d2, journal, store);
    }

    /** itrunc up to where the inode is written back: every block freed, every reference dropped. */
    method FreeAll(ip: Inode) returns (ok: bool)
      requires Valid() && Holds(ip)
      modifies this`store, this`journal, ip.addrs
      ensures ok && Freeing(sb, old(store), nodes[ip.inum], NREF, store) && Extends(old(journal), old(store), journal, store)
      ensures forall j :: 0 <= j <= NDIRECT ==> ip.addrs[j] == 0
    {
      hide Sound, Dense, SyncedBut, Freeing, Ref, Used, Extends;
      ghost var i, d0, j0 := ip.inum, store, journal;
      SoundFits(sb, d0, nodes, i);
      ok := FreeDirect(ip);
      if ip.addrs[NDIRECT] != 0 {
        ghost var d1, j1 := store, journal;
        ok := FreeIndirect(ip.addrs[NDIRECT], d0, i);
        ExtendsTwice(j0, d0, j1, d1, journal, store);
        ip.addrs[NDIRECT] := 0;
      } else {
        RestAbsent(sb, d0, nodes[i], NDIRECT, store);
      }
    }

    /** Discard a file's contents. */
    method Itrunc(ip: Inode) returns (ok: bool)
      requires Valid() && Holds(ip)
      modifies this`store, this`nodes, this`journal, ip`size, ip.addrs
      ensures ok && Valid() && Holds(ip)
      ensures Truncated(sb, old(store), old(nodes), store, nodes, ip.inum) && Extends(old(journal), old(store), journal, store)
    {
      hide Sound, Dense, SyncedBut, Freeing, Ref, Used, Truncated, WithNode, Extends, Logged;
      ghost var i, d0, nodes0, j0 := ip.inum, store, nodes, journal;
      SoundFits(sb, d0, nodes0, i);
      ok := FreeAll(ip);
      ip.size := 0;
      FreeingFits(sb, d0, nodes0[i], NREF, store);
      nodes := nodes0[i := Emptied(nodes0[i])];
      assert ip.addrs[..] == Emptied(nodes0[i]).addrs;
      ghost var d, j := store, journal;
      Iupdate(ip);
      ExtendsTwice(j0, d0, j, d, journal, store);
      TruncFinishes(sb, d0, nodes0, d, nodes, i, store);
      TruncatedValid(sb, d0, nodes0, store, nodes, i);
    }
  }

  lemma FreeingFits(sb: Super, d0: Disk, n: Node, k: nat, d: Disk)
    requires Freeing(sb, d0, n, k, d)
    ensures sb.Fits(d) && |d| == |d0|
  {
  }

  lemma IndirectUntouched(sb: Super, d0: Disk, n: Node, k: nat, d: Disk)
    requires Freeing(sb, d0, n, k, d) && |n.addrs| == NDIRECT + 1 && sb.DataStart() <= n.addrs[NDIRECT] < sb.size
    ensures |d| == |d0| && n.addrs[NDIRECT] < |d| && d[n.addrs[NDIRECT]] == d0[n.addrs[NDIRECT]]
  {
  }

  lemma TruncatedValid(sb: Super, d0: Disk, nodes0: seq<Node>, d: Disk, nodes: seq<Node>, i: nat)
    requires sb.Fits(d) && Truncated(sb, d0, nodes0, d, nodes, i)
    ensures Sound(sb, d, nodes) && Dense(d, nodes) && SyncedBut(sb, d, nodes, -1)
  {
  }

  lemma SameBlock(off: nat, k: nat, m: nat)
    requires k < m && off % BSIZE + m <= BSIZE
    ensures (off + k) / BSIZE == off / BSIZE && (off + k) % BSIZE == off % BSIZE + k
  {
  }

  lemma ContentSize(d: Disk, n: Node)
    ensures |Content(d, n)| == n.size
  {
  }

  lemma SpliceRange(c: seq<byte>, off: nat, s: seq<byte>)
    requires off <= |c|
    ensures |Splice(c, off, s)| == Max(|c|, off + |s|) && Splice(c, off, s)[off..off + |s|] == s
  {
    forall k | 0 <= k < |s| ensures Splice(c, off, s)[off + k] == s[k] {
      ReadAfterWrite(c, off, s, off + k);
    }
  }

  predicate Aligned(at: nat) {
    at % BSIZE == 0
  }

  /** As many of the bytes left as the block at byte at has room for. */
  function Piece(at: nat, left: nat): (m: nat)
    requires 0 < left
    ensures 0 < m <= left && at % BSIZE + m <= BSIZE && (m == left || Aligned(at + m))
  {
    if left < BSIZE - at % BSIZE then left else BSIZE - at % BSIZE
  }

  lemma DenseAt(d: Disk, nodes: seq<Node>, i: nat)
    requires Dense(d, nodes) && i < |nodes|
    ensures Mapped(d, nodes[i], nodes[i].size)
  {
  }

  /** Each round of writei finishes one block. */
  lemma RoundBlocks(off: nat, tot: nat, m: nat)
    requires 0 < m && (off + tot) % BSIZE + m <= BSIZE && (tot == 0 || Aligned(off + tot))
    ensures LastBlock(off, tot) == (off + tot) / BSIZE && LastBlock(off, tot + m) == (off + tot) / BSIZE + 1
  {
  }

  lemma WroteValid(sb: Super, d0: Disk, nodes0: seq<Node>, d: Disk, nodes: seq<Node>, i: nat, off: nat, s: seq<byte>)
    requires sb.Fits(d) && Wrote(sb, d0, nodes0, d, nodes, i, off, s)
    ensures Sound(sb, d, nodes) && Dense(d, nodes) && SyncedBut(sb, d, nodes, -1)
  {
  }

  /** Writing the inode back moves no reference. */
  lemma ResizeRefs(sb: Super, d: Disk, nodes: seq<Node>, i: nat, size: nat, d': Disk)
    requires Sound(sb, d, nodes) && i < |nodes| && nodes[i].(size := size).Ok() && d' == WithNode(sb, d, i, nodes[i].(size := size))
    ensures forall q :: 0 <= q < NREF ==> Ref(d', nodes[i].(size := size), q) == Ref(d, nodes[i], q)
  {
    ResizeKeepsSound(sb, d, nodes, i, size);
    var nodes' := nodes[i := nodes[i].(size := size)];
    NodeWriteKeeps(sb, d, nodes', i, d');
  }

  lemma WritingSound(sb: Super, d0: Disk, nodes0: seq<Node>, d: Disk, nodes: seq<Node>, i: nat, off0: nat, s: seq<byte>)
    requires Writing(sb, d0, nodes0, d, nodes, i, off0, s)
    ensures Sound(sb, d, nodes) && |d| == |d0| && |nodes| == |nodes0| && i < |nodes|
  {
  }

  lemma PatchKeepsRefs(sb: Super, d: Disk, nodes: seq<Node>, i: nat, bn: nat, x: Block)
    requires Sound(sb, d, nodes) && i < |nodes| && bn < MAXFILE && Ref(d, nodes[i], Slot(bn)) != 0
    ensures Ref(d, nodes[i], Slot(bn)) < |d|
    ensures forall q :: 0 <= q < NREF ==> Ref(d[Ref(d, nodes[i], Slot(bn)) := x], nodes[i], q) == Ref(d, nodes[i], q)
  {
    hide Ref;
    DataWriteKeeps(sb, d, nodes, i, Slot(bn), x);
  }

  /** With no indirect block its entries are absent. */
  lemma EntryAbsent(d: Disk, n: Node, j: nat)
    requires |n.addrs| == NDIRECT + 1 && NDIRECT < j < NREF
    ensures n.addrs[NDIRECT] == 0 ==> Ref(d, n, j) == 0
  {
  }

  lemma MarkedFrame(sb: Super, d: Disk, b: nat)
    requires sb.Fits(d) && sb.DataStart() <= b < sb.size
    ensures InodesKept(sb, d, Marked(sb, d, b))
  {
    hide MarkBit;
  }

  lemma SoundFits(sb: Super, d: Disk, nodes: seq<Node>, i: nat)
    requires Sound(sb, d, nodes) && i < |nodes|
    ensures sb.Fits(d) && nodes[i].Ok() && |nodes| == sb.ninodes
  {
  }

  lemma GrownReflexive(d: Disk, nodes: seq<Node>, i: nat)
    requires i < |nodes|
    ensures Grown(d, nodes, d, nodes, i)
  {
  }

  lemma RefSetRest(d: Disk, nodes: seq<Node>, d': Disk, nodes': seq<Node>, i: nat, j: nat, b: nat)
    requires RefSet(d, nodes, d', nodes', i, j, b) && i < |nodes|
    ensures forall q :: 0 <= q < NREF && q != j ==> Ref(d', nodes'[i], q) == Ref(d, nodes[i], q)
    ensures j < NREF ==> Ref(d', nodes'[i], j) == b
  {
    hide Ref;
  }
}
