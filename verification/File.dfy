/**
file.c's filewrite on an inode: a large write is cut into chunks, each its own
transaction.  What the chunks amount to together, and how many blocks one logs.
*/
module File {
  import opened Blocks
  import opened FsLayout
  import opened FsState
  import opened FsContent
  import opened FsLogs
  import opened Journal
  import opened Fs
  import Wal

  /** Bytes per transaction. */
  const CHUNK: nat := (Wal.LOGSIZE - 1 - 1 - 2) / 2 * 512
  const MAXBYTES: nat := MAXFILE * BSIZE

  datatype WriteResult = Returned(n: int) | Halted | HandedOver

  function Min(a: nat, b: nat): (m: nat) {
    if a < b then a else b
  }

  /** How many of n bytes at off the chunks get written before one would pass the largest file. */
  function Accepted(off: nat, n: nat): (w: nat)
    ensures w <= n
    decreases n
  {
    if n == 0 || off + Min(n, CHUNK) > MAXBYTES then 0
    else Min(n, CHUNK) + Accepted(off + Min(n, CHUNK), n - Min(n, CHUNK))
  }

  lemma {:induction false} AcceptedAll(off: nat, n: nat)
    ensures Accepted(off, n) == n <==> n == 0 || off + n <= MAXBYTES
    decreases n
  {
    if n != 0 && off + Min(n, CHUNK) <= MAXBYTES {
      AcceptedAll(off + Min(n, CHUNK), n - Min(n, CHUNK));
    }
  }

  /** The bytes a single writei of all n would write: all or none. */
  function Whole(off: nat, n: nat): (w: nat) {
    if off + n > MAXBYTES then 0 else n
  }

  /** Chunks do what one writei would, except when the write as a whole is too long for a file
      and yet its first chunk is not: then a prefix has been written although -1 is returned. */
  lemma ChunkedIsWhole(off: nat, n: nat)
    ensures Accepted(off, n) == Whole(off, n) <==> off + n <= MAXBYTES || off + Min(n, CHUNK) > MAXBYTES
  {
    AcceptedAll(off, n);
  }

  /** A write of 8192 bytes near the end of the largest file: a prefix stays. */
  lemma ChunkedDiffers()
    ensures Accepted(64512, 8192) == CHUNK && Whole(64512, 8192) == 0
  {
    assert Accepted(64512 + CHUNK, 8192 - CHUNK) == 0;
  }

  /** An open file on an inode. */
  class OpenFile {
    const ip: Inode
    const writable: bool
    var off: nat

    constructor (ip: Inode, writable: bool, off: nat)
      ensures this.ip == ip && this.writable == writable && this.off == off
    {
      this.ip, this.writable, this.off := ip, writable, off;
    }
  }

  /** filewrite on an inode: n bytes of addr at f.off.  devs are the device numbers whose driver can write;
      once a driver has been called, what happens is its business. */
  method Filewrite(fs: FileSystem, f: OpenFile, addr: seq<byte>, n: int, devs: set<nat>) returns (r: WriteResult)
    requires fs.Valid() && fs.Holds(f.ip) && f.off < WORD
    requires n <= |addr| && n < WORD
    modifies fs, f`off, f.ip, f.ip.addrs
    ensures r.Halted? ==> Full(fs.sb, fs.store)
    ensures r.HandedOver? <==> f.writable && n > 0 && old(f.ip.typ) == T_DEV && old(f.ip.major) < NDEV && old(f.ip.major) in devs
    ensures r.HandedOver? ==> fs.store == old(fs.store) && fs.nodes == old(fs.nodes) && f.off == old(f.off)
    ensures r.Returned? ==>
              var w := if f.writable && n > 0 && old(f.ip.typ) != T_DEV && old(f.off) <= old(f.ip.size) then Accepted(old(f.off), n) else 0;
              && r.n == (if f.writable && w == n then n else -1) && f.off == old(f.off) + w
              && fs.Valid() && fs.Holds(f.ip)
              && Progress(fs.sb, old(fs.store), old(fs.nodes), fs.store, fs.nodes, f.ip.inum, old(f.off), addr, w)
  {
    hide Sound, Dense, SyncedBut, Wrote, WriteLogs, Extends, Logged, Full, Progress, Accepted;
    ghost var d0, nodes0, off0, k := fs.store, fs.nodes, f.off, f.ip.inum;
    NoProgress(fs.sb, d0, nodes0, k, off0, addr);
    if !f.writable {
      return Returned(-1);
    }
    var i := 0;
    while i < n
      invariant 0 <= i && (i <= n || i == 0) && fs.Valid() && fs.Holds(f.ip) && f.ip.typ == old(f.ip.typ) && f.ip.major == old(f.ip.major)
      invariant i > 0 ==> f.ip.typ != T_DEV
      invariant f.off == off0 + i && (i > 0 ==> f.off <= MAXBYTES && off0 <= nodes0[k].size)
      invariant Progress(fs.sb, d0, nodes0, fs.store, fs.nodes, k, off0, addr, i)
      invariant n > 0 ==> Accepted(off0, n) == i + Accepted(off0 + i, n - i)
    {
      var n1 := n - i;
      if n1 > CHUNK {
        n1 := CHUNK;
      }
      ghost var d1, nodes1 := fs.store, fs.nodes;
      ProgressSize(fs.sb, d0, nodes0, d1, nodes1, k, off0, addr, i);
      AcceptedStep(off0 + i, n - i, n1);
      fs.op := fs.op + 1;
      var w := fs.Writei(f.ip, addr[i..i + n1], f.off, devs);
      if w.DiskFull? {
        return Halted;
      }
      if w.ToDevice? {
        return HandedOver;
      }
      if w.Refused? {
        return Returned(-1);
      }
      f.off := f.off + w.n;
      ProgressMade(fs.sb, d0, nodes0, d1, nodes1, fs.store, fs.nodes, k, off0, addr, i, n1);
      i := i + w.n;
    }
    AcceptedNone(off0 + i);
    return Returned(if i == n then n else -1);
  }

  /** After i bytes of addr have been written at off. */
  ghost predicate Progress(sb: Super, d0: Disk, nodes0: seq<Node>, d: Disk, nodes: seq<Node>, k: nat, off: nat, addr: seq<byte>, i: nat) {
    if i == 0 then d == d0 && nodes == nodes0
    else i <= |addr| && Wrote(sb, d0, nodes0, d, nodes, k, off, addr[..i])
  }

  lemma NoProgress(sb: Super, d: Disk, nodes: seq<Node>, k: nat, off: nat, addr: seq<byte>)
    ensures Progress(sb, d, nodes, d, nodes, k, off, addr, 0)
  {
  }

  lemma ProgressSize(sb: Super, d0: Disk, nodes0: seq<Node>, d: Disk, nodes: seq<Node>, k: nat, off: nat, addr: seq<byte>, i: nat)
    requires Progress(sb, d0, nodes0, d, nodes, k, off, addr, i) && k < |nodes0|
    ensures i == 0 ==> d == d0 && nodes == nodes0
    ensures i > 0 ==> k < |nodes| && off <= nodes0[k].size && off + i <= nodes[k].size
  {
    hide Sound, Dense, SyncedBut, Content;
  }

  lemma ProgressMade(sb: Super, d0: Disk, nodes0: seq<Node>, d1: Disk, nodes1: seq<Node>, d: Disk, nodes: seq<Node>, k: nat, off: nat, addr: seq<byte>, i: nat, m: nat)
    requires Progress(sb, d0, nodes0, d1, nodes1, k, off, addr, i) && 0 < m && i + m <= |addr|
    requires Wrote(sb, d1, nodes1, d, nodes, k, off + i, addr[i..i + m])
    ensures Progress(sb, d0, nodes0, d, nodes, k, off, addr, i + m)
    ensures k < |nodes| == |nodes1| && nodes[k].typ == nodes1[k].typ && nodes[k].major == nodes1[k].major && off + i <= nodes1[k].size
  {
    hide Sound, Dense, SyncedBut, Content, Splice;
    assert addr[..i] + addr[i..i + m] == addr[..i + m];
    if i > 0 {
      WroteTwice(sb, d0, nodes0, d1, nodes1, d, nodes, k, off, addr[..i], addr[i..i + m]);
    }
  }

  lemma AcceptedNone(off: nat)
    ensures Accepted(off, 0) == 0
  {
  }

  lemma AcceptedStep(off: nat, n: nat, n1: nat)
    requires n > 0 && n1 == Min(n, CHUNK)
    ensures n1 > 0 && Accepted(off, n) == if off + n1 > MAXBYTES then 0 else n1 + Accepted(off + n1, n - n1)
  {
  }

  lemma WroteTwice(sb: Super, d: Disk, nodes: seq<Node>, d1: Disk, nodes1: seq<Node>, d2: Disk, nodes2: seq<Node>, i: nat, off: nat, s: seq<byte>, t: seq<byte>)
    requires Wrote(sb, d, nodes, d1, nodes1, i, off, s) && Wrote(sb, d1, nodes1, d2, nodes2, i, off + |s|, t)
    ensures Wrote(sb, d, nodes, d2, nodes2, i, off, s + t)
  {
    hide Sound, Dense, SyncedBut, Content;
    SpliceTwice(Content(d, nodes[i]), off, s, t);
  }

  // ---- how many blocks one chunk logs ----

  /** How many blocks a writei of m bytes at off logs, from the file as it is before the call: the blocks
      written, and one each for the indirect block if it gets an entry, the free map if a block is
      allocated and the inode if the file grows. */
  ghost function LogCount(d: Disk, n: Node, off: nat, m: nat): (k: int) {
    var lo, hi := off / BSIZE, LastBlock(off, m);
    hi - lo + One(SomeAbsent(d, n, Later(lo, NDIRECT), hi)) + One(SomeAbsent(d, n, lo, hi)) + One(Grows(n, off, m))
  }

  /** On a disk with one free map block, that many exactly. */
  lemma WriteCount(sb: Super, d0: Disk, n0: Node, d: Disk, nodes: seq<Node>, i: nat, off: nat, m: nat, l: set<nat>)
    requires Sound(sb, d, nodes) && i < |nodes| && sb.size <= BPB
    requires WriteLogs(sb, d0, n0, d, nodes[i], i, off, m, l)
    ensures |l| == LogCount(d0, n0, off, m)
  {
    hide Sound, Absent, SomeAbsent, LogBlock, Parts, Grows, LastBlock;
    var lo, hi, grows := off / BSIZE, LastBlock(off, m), Grows(n0, off, m);
    PartsCount(sb, d0, n0, d, nodes, i, lo, hi, grows);
    forall x: nat ensures x in l <==> x in Parts(sb, d0, n0, d, nodes[i], i, lo, hi, grows) {
      PartsAre(sb, d0, n0, d, nodes, i, lo, hi, grows, x);
    }
    assert l == Parts(sb, d0, n0, d, nodes[i], i, lo, hi, grows);
  }

  /** A chunk logs up to seventeen blocks, more than the MAXOPBLOCKS begin_op reserves: exactly when it
      touches fourteen blocks, grows the file and allocates a block named by the indirect block. */
  lemma ChunkLogs(sb: Super, d0: Disk, n0: Node, d: Disk, nodes: seq<Node>, i: nat, off: nat, m: nat, l: set<nat>)
    requires Sound(sb, d, nodes) && i < |nodes| && sb.size <= BPB && m <= CHUNK
    requires WriteLogs(sb, d0, n0, d, nodes[i], i, off, m, l)
    ensures |l| > Wal.MAXOPBLOCKS <==> LogCount(d0, n0, off, m) > Wal.MAXOPBLOCKS
    ensures |l| <= 17
    ensures |l| == 17 <==> off % BSIZE + m > 13 * BSIZE && Grows(n0, off, m) && SomeAbsent(d0, n0, Later(off / BSIZE, NDIRECT), LastBlock(off, m))
  {
    hide Sound, SomeAbsent, WriteLogs;
    WriteCount(sb, d0, n0, d, nodes, i, off, m, l);
    assert LastBlock(off, m) - off / BSIZE == 14 <==> off % BSIZE + m > 13 * BSIZE;
    assert SomeAbsent(d0, n0, Later(off / BSIZE, NDIRECT), LastBlock(off, m)) ==> SomeAbsent(d0, n0, off / BSIZE, LastBlock(off, m)) by {
      AbsentLater(d0, n0, off / BSIZE, LastBlock(off, m));
    }
  }

  lemma AbsentLater(d: Disk, n: Node, lo: nat, hi: nat)
    ensures SomeAbsent(d, n, Later(lo, NDIRECT), hi) ==> SomeAbsent(d, n, lo, hi)
  {
    hide Absent;
    if SomeAbsent(d, n, Later(lo, NDIRECT), hi) {
      var bn :| Later(lo, NDIRECT) <= bn < hi && Absent(d, n, bn);
    }
  }

  /** Overwriting bytes the file already has logs the blocks written and nothing else, so a chunk of it
      keeps to MAXOPBLOCKS exactly when it touches at most ten blocks. */
  lemma OverwriteLogs(sb: Super, d0: Disk, n0: Node, d: Disk, nodes: seq<Node>, i: nat, off: nat, m: nat, l: set<nat>)
    requires Sound(sb, d, nodes) && i < |nodes| && sb.size <= BPB && Mapped(d0, n0, n0.size) && 0 < m && off + m <= n0.size
    requires WriteLogs(sb, d0, n0, d, nodes[i], i, off, m, l)
    ensures |l| <= Wal.MAXOPBLOCKS <==> off % BSIZE + m <= Wal.MAXOPBLOCKS * BSIZE
  {
    hide Sound, WriteLogs, Ref;
    WriteCount(sb, d0, n0, d, nodes, i, off, m, l);
    AbsentLater(d0, n0, off / BSIZE, LastBlock(off, m));
    forall bn | off / BSIZE <= bn < LastBlock(off, m) ensures !Absent(d0, n0, bn) {
      assert bn * BSIZE < n0.size;
    }
  }

  /** Appending a full chunk to a file of twelve blocks and a hundred bytes logs seventeen. */
  lemma LongestChunk(sb: Super, d0: Disk, n0: Node, d: Disk, nodes: seq<Node>, i: nat, l: set<nat>)
    requires Sound(sb, d, nodes) && i < |nodes| && sb.size <= BPB && n0.size == 12 * BSIZE + 100 && Absent(d0, n0, 13)
    requires WriteLogs(sb, d0, n0, d, nodes[i], i, n0.size, CHUNK, l)
    ensures |l| == 17
  {
    hide Sound, WriteLogs, Absent;
    ChunkLogs(sb, d0, n0, d, nodes, i, n0.size, CHUNK, l);
    assert Later(n0.size / BSIZE, NDIRECT) <= 13 < LastBlock(n0.size, CHUNK);
  }
}
