/**
The buffer cache of bio.c over the in-memory disk of memide.c.  A buffer is an
element of a fixed array, linked into a most-recently-used ring through prev and
next; index HEAD is the list head.  The ghost field store is the plain block
store the cache stands for: the contents last logged or written for each block.
*/
module BufferCache {
  import opened Blocks

  const NBUF: nat := 30
  const HEAD: nat := NBUF
  const NODEV: nat := 0xFFFF_FFFF
  const ROOTDEV: nat := 1

  datatype Buf = Buf(busy: bool, valid: bool, dirty: bool, dev: nat, blockno: nat,
                     prev: nat, next: nat, data: Block)
  {
    predicate Is(dev: nat, blockno: nat) {
      this.dev == dev && this.blockno == blockno
    }

    predicate Recyclable() {
      !busy && !dirty
    }

    /** The buffer without its links. */
    function Core(): Buf {
      this.(prev := 0, next := 0)
    }
  }

  datatype Outcome = Got(b: nat) | Asleep | Panic

  // ---- the ring ----

  /** The ith element of the closed walk HEAD, order..., HEAD. */
  function At(order: seq<nat>, i: nat): (b: nat) {
    if 1 <= i <= |order| then order[i - 1] else HEAD
  }

  ghost predicate Order(order: seq<nat>) {
    && (forall i :: 0 <= i < |order| ==> order[i] < NBUF)
    && (forall i, j :: 0 <= i < j < |order| ==> order[i] != order[j])
  }

  /** prev and next form a doubly linked circle through HEAD and order. */
  ghost predicate Linked(s: seq<Buf>, order: seq<nat>) {
    && |s| == NBUF + 1
    && Order(order)
    && (forall i :: 0 <= i <= |order| ==> s[At(order, i)].next == At(order, i + 1))
    && (forall i :: 0 <= i <= |order| ==> s[At(order, i + 1)].prev == At(order, i))
  }

  /** The pointer stores that take b out of the ring. */
  function Unlink(s: seq<Buf>, b: nat): (r: seq<Buf>)
    requires b < |s| && s[b].next < |s| && s[b].prev < |s|
    ensures |r| == |s|
  {
    var s1 := s[s[b].next := s[s[b].next].(prev := s[b].prev)];
    if s1[b].prev < |s| then s1[s1[b].prev := s1[s1[b].prev].(next := s1[b].next)] else s1
  }

  /** The pointer stores that put b behind the head. */
  function Push(s: seq<Buf>, b: nat): (r: seq<Buf>)
    requires |s| == NBUF + 1 && b < NBUF
    ensures |r| == |s|
  {
    var s1 := s[b := s[b].(next := s[HEAD].next, prev := HEAD)];
    if s1[HEAD].next < |s| then
      var s2 := s1[s1[HEAD].next := s1[s1[HEAD].next].(prev := b)];
      s2[HEAD := s2[HEAD].(next := b)]
    else s1
  }

  lemma UnlinkKeepsRing(s: seq<Buf>, order: seq<nat>, k: nat)
    requires Linked(s, order) && k < |order|
    ensures s[order[k]].next < |s| && s[order[k]].prev < |s|
    ensures Linked(Unlink(s, order[k]), order[..k] + order[k + 1..])
  {
    var b := order[k];
    assert At(order, k + 1) == b;
    assert s[b].next == At(order, k + 2) && s[b].prev == At(order, k);
    var rest := order[..k] + order[k + 1..];
    var r := Unlink(s, b);
    forall i | 0 <= i <= |rest|
      ensures r[At(rest, i)].next == At(rest, i + 1) && r[At(rest, i + 1)].prev == At(rest, i)
    {
      var o := if i <= k then i else i + 1;
      assert At(rest, i) == At(order, o);
      var o' := if i + 1 <= k then i + 1 else i + 2;
      assert At(rest, i + 1) == At(order, o');
      assert s[At(order, o)].next == At(order, o + 1);
      assert s[At(order, o' - 1 + 1)].prev == At(order, o' - 1);
    }
  }

  lemma PushKeepsRing(s: seq<Buf>, order: seq<nat>, b: nat)
    requires Linked(s, order) && b < NBUF && b !in order
    ensures Linked(Push(s, b), [b] + order)
  {
    assert s[At(order, 0)].next == At(order, 1);
    assert s[At(order, 1)].prev == At(order, 0);
    var r := Push(s, b);
    var longer := [b] + order;
    forall i | 0 <= i <= |longer|
      ensures r[At(longer, i)].next == At(longer, i + 1) && r[At(longer, i + 1)].prev == At(longer, i)
    {
      if i >= 1 {
        assert At(longer, i) == if i == 1 then b else At(order, i - 1);
        assert At(longer, i + 1) == At(order, i);
        assert s[At(order, i - 1)].next == At(order, i);
        assert s[At(order, i - 1 + 1)].prev == At(order, i - 1);
      }
    }
  }

  lemma PushCores(s: seq<Buf>, b: nat, j: nat)
    requires |s| == NBUF + 1 && b < NBUF && j < NBUF
    ensures Push(s, b)[j].Core() == s[j].Core()
  {
  }

  lemma UnlinkCores(s: seq<Buf>, b: nat, j: nat)
    requires b < |s| && s[b].next < |s| && s[b].prev < |s| && j < |s|
    ensures Unlink(s, b)[j].Core() == s[j].Core()
  {
  }

  /** The order of use after b has been used. */
  ghost predicate MovedToFront(before: seq<nat>, after: seq<nat>, b: nat) {
    exists k :: 0 <= k < |before| && before[k] == b && after == [b] + (before[..k] + before[k + 1..])
  }

  // ---- coherence with the block store ----

  /** Some dirty buffer holds block bn. */
  ghost predicate Pinned(s: seq<Buf>, bn: nat) {
    exists i :: 0 <= i < NBUF && i < |s| && s[i].dirty && s[i].blockno == bn
  }

  /** Some buffer may be recycled. */
  ghost predicate SomeFree(s: seq<Buf>) {
    exists i :: 0 <= i < NBUF && i < |s| && s[i].Recyclable()
  }

  /** Buffers hold distinct blocks, released buffers hold the store's contents, and only
      blocks pinned by a dirty buffer may differ between store and disk. */
  ghost predicate Coherent(s: seq<Buf>, disk: Disk, store: Disk) {
    && |s| == NBUF + 1 && |store| == |disk|
    && (forall i :: 0 <= i < NBUF && s[i].valid ==> s[i].dev == ROOTDEV && s[i].blockno < |disk|)
    && (forall i :: 0 <= i < NBUF && s[i].dirty ==> s[i].valid)
    && (forall i :: 0 <= i < NBUF && s[i].valid && !s[i].busy ==> s[i].data == store[s[i].blockno])
    && (forall i, j :: 0 <= i < j < NBUF && s[i].dev != NODEV ==> !s[j].Is(s[i].dev, s[i].blockno))
    && (forall bn :: 0 <= bn < |disk| && store[bn] != disk[bn] ==> Pinned(s, bn))
  }

  ghost predicate SameCores(s: seq<Buf>, t: seq<Buf>) {
    |s| == |t| == NBUF + 1 && forall i :: 0 <= i < NBUF ==> s[i].Core() == t[i].Core()
  }

  lemma CoherentIgnoresLinks(s: seq<Buf>, t: seq<Buf>, disk: Disk, store: Disk)
    requires SameCores(s, t) && Coherent(s, disk, store)
    ensures Coherent(t, disk, store)
  {
    assert forall i :: 0 <= i < NBUF ==> s[i].Core() == t[i].Core();
    forall i | 0 <= i < NBUF
      ensures t[i].busy == s[i].busy && t[i].valid == s[i].valid && t[i].dirty == s[i].dirty
      ensures t[i].dev == s[i].dev && t[i].blockno == s[i].blockno && t[i].data == s[i].data
    {
      assert s[i].Core() == t[i].Core();
    }
    forall bn | 0 <= bn < |disk| && store[bn] != disk[bn] ensures Pinned(t, bn) {
      assert Pinned(s, bn);
    }
  }

  /** A released, valid, clean buffer equals the disk. */
  lemma CleanEqualsDisk(s: seq<Buf>, disk: Disk, store: Disk, i: nat)
    requires Coherent(s, disk, store) && i < NBUF
    requires s[i].valid && !s[i].busy && !s[i].dirty
    ensures s[i].data == disk[s[i].blockno]
  {
    var bn := s[i].blockno;
    if Pinned(s, bn) {
      var j :| 0 <= j < NBUF && s[j].dirty && s[j].blockno == bn;
      assert s[j].Is(s[i].dev, s[i].blockno) && s[i].Is(s[j].dev, s[j].blockno);
    }
  }

  /** A block no valid buffer holds is the same in store and disk. */
  lemma UncachedEqualsDisk(s: seq<Buf>, disk: Disk, store: Disk, bn: nat)
    requires Coherent(s, disk, store) && bn < |disk|
    requires forall i :: 0 <= i < NBUF && s[i].valid ==> !s[i].Is(ROOTDEV, bn)
    ensures store[bn] == disk[bn]
  {
  }

  /** A change that keeps b's links keeps the ring. */
  lemma RingIgnoresCore(s: seq<Buf>, order: seq<nat>, b: nat, x: Buf)
    requires Linked(s, order) && b < |s| && x.next == s[b].next && x.prev == s[b].prev
    ensures Linked(s[b := x], order)
  {
  }

  lemma HoldKeepsCoherent(s: seq<Buf>, disk: Disk, store: Disk, b: nat)
    requires Coherent(s, disk, store) && b < NBUF
    ensures Coherent(s[b := s[b].(busy := true)], disk, store)
  {
    var t := s[b := s[b].(busy := true)];
    forall bn | 0 <= bn < |disk| && store[bn] != disk[bn] ensures Pinned(t, bn) {
      var j :| 0 <= j < NBUF && s[j].dirty && s[j].blockno == bn;
      assert t[j].dirty && t[j].blockno == bn;
    }
  }

  lemma RecycleKeepsCoherent(s: seq<Buf>, disk: Disk, store: Disk, b: nat, x: Buf)
    requires Coherent(s, disk, store) && b < NBUF && !s[b].dirty
    requires forall i :: 0 <= i < NBUF ==> !s[i].Is(x.dev, x.blockno)
    requires x.busy && !x.valid && !x.dirty
    ensures Coherent(s[b := x], disk, store)
  {
    var t := s[b := x];
    forall bn | 0 <= bn < |disk| && store[bn] != disk[bn] ensures Pinned(t, bn) {
      var j :| 0 <= j < NBUF && s[j].dirty && s[j].blockno == bn;
      assert t[j].dirty && t[j].blockno == bn;
    }
  }

  /** Filling an invalid buffer from the disk gives it the store's contents. */
  lemma ReadKeepsCoherent(s: seq<Buf>, disk: Disk, store: Disk, b: nat)
    requires Coherent(s, disk, store) && b < NBUF && !s[b].valid && s[b].dev == ROOTDEV && s[b].blockno < |disk|
    ensures store[s[b].blockno] == disk[s[b].blockno]
    ensures Coherent(s[b := s[b].(data := disk[s[b].blockno], valid := true)], disk, store)
  {
    forall i | 0 <= i < NBUF && s[i].valid ensures !s[i].Is(ROOTDEV, s[b].blockno) {
      if i < b {
        assert !s[b].Is(s[i].dev, s[i].blockno);
      } else {
        assert !s[i].Is(s[b].dev, s[b].blockno);
      }
    }
    UncachedEqualsDisk(s, disk, store, s[b].blockno);
    var t := s[b := s[b].(data := disk[s[b].blockno], valid := true)];
    forall bn | 0 <= bn < |disk| && store[bn] != disk[bn] ensures Pinned(t, bn) {
      var j :| 0 <= j < NBUF && s[j].dirty && s[j].blockno == bn;
      assert t[j].dirty && t[j].blockno == bn;
    }
  }

  lemma FillKeepsCoherent(s: seq<Buf>, disk: Disk, store: Disk, b: nat, data: Block)
    requires Coherent(s, disk, store) && b < NBUF && s[b].busy
    ensures Coherent(s[b := s[b].(data := data)], disk, store)
  {
    var t := s[b := s[b].(data := data)];
    forall bn | 0 <= bn < |disk| && store[bn] != disk[bn] ensures Pinned(t, bn) {
      var j :| 0 <= j < NBUF && s[j].dirty && s[j].blockno == bn;
      assert t[j].dirty && t[j].blockno == bn;
    }
  }

  lemma SameCoresTwice(s: seq<Buf>, t: seq<Buf>, u: seq<Buf>)
    requires SameCores(t, s) && SameCores(u, t)
    ensures SameCores(u, s) && SameCores(s, u)
  {
  }

  lemma MoveKeepsAll(before: seq<nat>, k: nat, b: nat, after: seq<nat>)
    requires k < |before| && before[k] == b && forall i :: 0 <= i < NBUF ==> i in before
    requires after == [b] + (before[..k] + before[k + 1..])
    ensures forall i :: 0 <= i < NBUF ==> i in after
  {
    forall i | 0 <= i < NBUF ensures i in after {
      assert i in before;
      var m :| 0 <= m < |before| && before[m] == i;
      assert m < k ==> after[m + 1] == i;
      assert m > k ==> after[m] == i;
    }
  }

  lemma LinkedDistinct(s: seq<Buf>, order: seq<nat>, k: nat)
    requires Linked(s, order) && k < |order|
    ensures order[k] !in order[..k] + order[k + 1..]
  {
  }

  lemma InStore(s: seq<Buf>, disk: Disk, store: Disk, b: nat)
    requires Coherent(s, disk, store) && b < NBUF
    ensures s[b].valid ==> s[b].blockno < |store|
  {
  }

  lemma ReleaseCoherent(s: seq<Buf>, disk: Disk, store: Disk, b: nat)
    requires Coherent(s, disk, store) && b < NBUF
    ensures Coherent(s[b := s[b].(busy := false)], disk, store) <==> (s[b].valid ==> s[b].data == store[s[b].blockno])
  {
    var t := s[b := s[b].(busy := false)];
    assert t[b].valid == s[b].valid && t[b].data == s[b].data && t[b].blockno == s[b].blockno;
    if s[b].valid ==> s[b].data == store[s[b].blockno] {
      forall bn | 0 <= bn < |disk| && store[bn] != disk[bn] ensures Pinned(t, bn) {
        var j :| 0 <= j < NBUF && s[j].dirty && s[j].blockno == bn;
        assert t[j].dirty && t[j].blockno == bn;
      }
    }
  }

  /** No other valid buffer holds b's block. */
  lemma SoleHolder(s: seq<Buf>, disk: Disk, store: Disk, b: nat, i: nat)
    requires Coherent(s, disk, store) && b < NBUF && i < NBUF && s[b].dev == ROOTDEV && s[i].valid && i != b
    ensures s[i].blockno != s[b].blockno
  {
    assert i < b ==> !s[b].Is(s[i].dev, s[i].blockno);
    assert b < i ==> !s[i].Is(s[b].dev, s[b].blockno);
  }

  lemma PinKeepsCoherent(s: seq<Buf>, disk: Disk, store: Disk, b: nat)
    requires Coherent(s, disk, store) && b < NBUF && s[b].busy && s[b].valid
    ensures Coherent(s[b := s[b].(dirty := true)], disk, store[s[b].blockno := s[b].data])
  {
    var t, next := s[b := s[b].(dirty := true)], store[s[b].blockno := s[b].data];
    forall i | 0 <= i < NBUF && s[i].valid && i != b ensures s[i].blockno != s[b].blockno {
      SoleHolder(s, disk, store, b, i);
    }
    forall bn | 0 <= bn < |disk| && next[bn] != disk[bn] ensures Pinned(t, bn) {
      if bn == s[b].blockno {
        assert t[b].dirty;
      } else {
        var j :| 0 <= j < NBUF && s[j].dirty && s[j].blockno == bn;
        assert t[j].dirty && t[j].blockno == bn;
      }
    }
  }

  lemma WriteKeepsCoherent(s: seq<Buf>, disk: Disk, store: Disk, b: nat)
    requires Coherent(s, disk, store) && b < NBUF && s[b].busy && s[b].dev == ROOTDEV && s[b].blockno < |disk|
    ensures Coherent(s[b := s[b].(dirty := false, valid := true)], disk[s[b].blockno := s[b].data], store[s[b].blockno := s[b].data])
  {
    var t := s[b := s[b].(dirty := false, valid := true)];
    var disk', store' := disk[s[b].blockno := s[b].data], store[s[b].blockno := s[b].data];
    forall i | 0 <= i < NBUF && s[i].valid && i != b ensures s[i].blockno != s[b].blockno {
      SoleHolder(s, disk, store, b, i);
    }
    forall bn | 0 <= bn < |disk| && store'[bn] != disk'[bn] ensures Pinned(t, bn) {
      var j :| 0 <= j < NBUF && s[j].dirty && s[j].blockno == bn;
      assert t[j].dirty && t[j].blockno == bn;
    }
  }

  class Bcache {
    const buf: array<Buf>
    var disk: Disk
    ghost var order: seq<nat>
    ghost var store: Disk
    /** Every disk image since start-up, one per block write. */
    ghost var history: seq<Disk>

    ghost predicate Valid()
      reads this, buf
    {
      && buf.Length == NBUF + 1
      && Linked(buf[..], order)
      && (forall i :: 0 <= i < NBUF ==> i in order)
      && Coherent(buf[..], disk, store)
    }

    ghost predicate Cached(dev: nat, blockno: nat)
      requires buf.Length == NBUF + 1
      reads this, buf
    {
      exists i :: 0 <= i < NBUF && buf[i].Is(dev, blockno)
    }

    ghost predicate Held(dev: nat, blockno: nat)
      requires buf.Length == NBUF + 1
      reads this, buf
    {
      exists i :: 0 <= i < NBUF && buf[i].Is(dev, blockno) && buf[i].busy
    }

    /** b is the least recently released buffer that may be recycled. */
    ghost predicate Victim(b: nat)
      requires buf.Length == NBUF + 1
      reads this, buf
    {
      exists k :: 0 <= k < |order| && order[k] == b && b < NBUF && buf[b].Recyclable()
                  && forall j :: k < j < |order| && order[j] < NBUF ==> !buf[order[j]].Recyclable()
    }

    /** binit over the given disk image: every buffer linked, none holding a real block. */
    constructor (image: Disk)
      ensures Valid() && fresh(buf)
      ensures disk == image && store == image && history == [image]
      ensures forall i :: 0 <= i < NBUF ==> !buf[i].valid && buf[i].Recyclable() && buf[i].dev == NODEV
    {
      buf := new Buf[NBUF + 1](_ => Buf(false, false, false, 0, 0, HEAD, HEAD, ZeroBlock()));
      disk := image;
      store := image;
      history := [image];
      order := [];
      new;
      for b := 0 to NBUF
        invariant disk == image && store == image && history == [image]
        invariant Linked(buf[..], order)
        invariant forall i :: i in order <==> 0 <= i < b
        invariant forall i :: 0 <= i < NBUF ==> !buf[i].valid && buf[i].Recyclable()
        invariant forall i :: 0 <= i < b ==> buf[i].dev == NODEV
      {
        buf[b] := buf[b].(dev := NODEV);
        LinkFront(b);
      }
    }

    /** The four stores by which binit and brelse put b at the most recently used end. */
    method LinkFront(b: nat)
      requires buf.Length == NBUF + 1 && b < NBUF && b !in order && Linked(buf[..], order)
      modifies buf, this`order
      ensures order == [b] + old(order) && Linked(buf[..], order)
      ensures SameCores(buf[..], old(buf[..]))
    {
      ghost var s := buf[..];
      assert s[At(order, 0)].next == At(order, 1);
      buf[b] := buf[b].(next := buf[HEAD].next, prev := HEAD);
      var h := buf[HEAD].next;
      buf[h] := buf[h].(prev := b);
      buf[HEAD] := buf[HEAD].(next := b);
      assert buf[..] == Push(s, b);
      PushKeepsRing(s, order, b);
      forall j | 0 <= j < NBUF ensures buf[j].Core() == s[j].Core() {
        PushCores(s, b, j);
      }
      order := [b] + order;
    }

    /** The two stores by which brelse takes b out of the ring. */
    method Detach(b: nat, ghost k: nat)
      requires buf.Length == NBUF + 1 && k < |order| && order[k] == b && Linked(buf[..], order)
      modifies buf, this`order
      ensures order == old(order)[..k] + old(order)[k + 1..] && Linked(buf[..], order)
      ensures SameCores(buf[..], old(buf[..]))
    {
      ghost var s := buf[..];
      UnlinkKeepsRing(s, order, k);
      var n := buf[b].next;
      buf[n] := buf[n].(prev := buf[b].prev);
      var p := buf[b].prev;
      buf[p] := buf[p].(next := buf[b].next);
      assert buf[..] == Unlink(s, b);
      forall j | 0 <= j < NBUF ensures buf[j].Core() == s[j].Core() {
        UnlinkCores(s, b, j);
      }
      order := order[..k] + order[k + 1..];
    }

    /** memide's iderw: write a dirty buffer out, read an invalid one in, panic otherwise. */
    method Iderw(b: nat) returns (ok: bool)
      requires buf.Length == NBUF + 1 && b < NBUF
      modifies this`disk, this`history, buf
      ensures ok <==> old(buf[b].busy && (!buf[b].valid || buf[b].dirty) && buf[b].dev == ROOTDEV && buf[b].blockno < |disk|)
      ensures forall j :: 0 <= j <= NBUF && j != b ==> buf[j] == old(buf[j])
      ensures !ok ==> disk == old(disk) && history == old(history) && buf[b] == old(buf[b])
      ensures ok && old(buf[b].dirty) ==>
                && disk == old(disk[buf[b].blockno := buf[b].data]) && history == old(history) + [disk]
                && buf[b] == old(buf[b]).(dirty := false, valid := true)
      ensures ok && !old(buf[b].dirty) ==>
                && disk == old(disk) && history == old(history)
                && buf[b] == old(buf[b].(data := disk[buf[b].blockno], valid := true))
    {
      if !buf[b].busy || (buf[b].valid && !buf[b].dirty) || buf[b].dev != ROOTDEV || buf[b].blockno >= |disk| {
        return false;
      }
      if buf[b].dirty {
        buf[b] := buf[b].(dirty := false);
        disk := disk[buf[b].blockno := buf[b].data];
        history := history + [disk];
      } else {
        buf[b] := buf[b].(data := disk[buf[b].blockno]);
      }
      buf[b] := buf[b].(valid := true);
      ok := true;
    }

    /** bget's first walk, most recently used first. */
    method Find(dev: nat, blockno: nat) returns (b: nat)
      requires Valid()
      ensures b == HEAD <==> !Cached(dev, blockno)
      ensures b != HEAD ==> b < NBUF && buf[b].Is(dev, blockno)
    {
      b := buf[HEAD].next;
      ghost var i := 0;
      assert b == At(order, 1) by { assert buf[..][At(order, 0)].next == At(order, 1); }
      while b != HEAD
        invariant 0 <= i <= |order| && b == At(order, i + 1)
        invariant forall j :: 0 <= j < i ==> !buf[order[j]].Is(dev, blockno)
        decreases |order| - i
      {
        assert b == order[i];
        if buf[b].dev == dev && buf[b].blockno == blockno {
          return;
        }
        assert buf[..][At(order, i + 1)].next == At(order, i + 2);
        b := buf[b].next;
        i := i + 1;
      }
      forall x | 0 <= x < NBUF ensures !buf[x].Is(dev, blockno) {
        assert x in order;
      }
    }

    /** bget's second walk, least recently used first. */
    method FindVictim() returns (b: nat)
      requires Valid()
      ensures b == HEAD <==> !SomeFree(buf[..])
      ensures b != HEAD ==> Victim(b)
    {
      b := buf[HEAD].prev;
      ghost var i := |order|;
      assert b == At(order, i) by { assert buf[..][At(order, |order| + 1)].prev == At(order, |order|); }
      while b != HEAD
        invariant 0 <= i <= |order| && b == At(order, i)
        invariant forall j :: i <= j < |order| ==> !buf[order[j]].Recyclable()
        decreases i
      {
        assert b == order[i - 1];
        if !buf[b].busy && !buf[b].dirty {
          return;
        }
        assert buf[..][At(order, i - 1 + 1)].prev == At(order, i - 1);
        b := buf[b].prev;
        i := i - 1;
      }
      forall x: nat | x < NBUF ensures !buf[x].Recyclable() {
        assert x in order;
      }
    }

    /** Find the block in the cache, else recycle the least recently used clean buffer. */
    method Bget(dev: nat, blockno: nat) returns (r: Outcome)
      requires Valid() && dev < NODEV
      modifies buf
      ensures Valid()
      ensures r.Asleep? <==> old(Held(dev, blockno))
      ensures r.Panic? <==> old(!Cached(dev, blockno) && !SomeFree(buf[..]))
      ensures !r.Got? ==> buf[..] == old(buf[..])
      ensures r.Got? ==>
                && r.b < NBUF && !old(buf[r.b].busy)
                && (forall j :: 0 <= j <= NBUF && j != r.b ==> buf[j] == old(buf[j]))
                && (old(Cached(dev, blockno)) ==> old(buf[r.b]).Is(dev, blockno) && buf[r.b] == old(buf[r.b]).(busy := true))
                && (old(!Cached(dev, blockno)) ==>
                      && old(Victim(r.b))
                      && buf[r.b] == old(buf[r.b]).(dev := dev, blockno := blockno, busy := true, valid := false, dirty := false))
    {
      var b := Find(dev, blockno);
      if b != HEAD {
        if buf[b].busy {
          return Asleep;
        }
        HoldKeepsCoherent(buf[..], disk, store, b);
        RingIgnoresCore(buf[..], order, b, buf[b].(busy := true));
        buf[b] := buf[b].(busy := true);
        assert buf[..] == old(buf[..])[b := buf[b]];
        return Got(b);
      }
      b := FindVictim();
      if b == HEAD {
        return Panic;
      }
      ghost var x := buf[b].(dev := dev, blockno := blockno, busy := true, valid := false, dirty := false);
      RecycleKeepsCoherent(buf[..], disk, store, b, x);
      RingIgnoresCore(buf[..], order, b, x);
      buf[b] := buf[b].(dev := dev, blockno := blockno);
      buf[b] := buf[b].(busy := true, valid := false, dirty := false);
      assert buf[..] == old(buf[..])[b := x];
      return Got(b);
    }

    /** A held buffer with the store's contents of the block. */
    method Bread(dev: nat, blockno: nat) returns (r: Outcome)
      requires Valid() && dev < NODEV
      modifies this`disk, this`history, buf
      ensures Valid() && disk == old(disk) && store == old(store) && history == old(history)
      ensures r.Asleep? <==> old(Held(dev, blockno))
      ensures r.Panic? <==> old(!Held(dev, blockno) && ((!Cached(dev, blockno) && !SomeFree(buf[..])) || dev != ROOTDEV || blockno >= |disk|))
      ensures r.Got? ==>
                && r.b < NBUF && !old(buf[r.b].busy) && buf[r.b].busy && buf[r.b].valid
                && buf[r.b].Is(dev, blockno) && buf[r.b].data == store[blockno]
                && (forall j :: 0 <= j < NBUF && j != r.b ==> buf[j] == old(buf[j]))
                && (old(Cached(dev, blockno)) ==> old(buf[r.b]).Is(dev, blockno))
                && (old(!Cached(dev, blockno)) ==> old(Victim(r.b)))
                && buf[r.b].dirty == old(buf[r.b].dirty)
                && (old(buf[r.b].dirty) ==> buf[r.b] == old(buf[r.b]).(busy := true))
    {
      r := Bget(dev, blockno);
      if !r.Got? {
        return;
      }
      var b := r.b;
      ghost var s := buf[..];
      if !buf[b].valid {
        var ok := Iderw(b);
        if !ok {
          assert buf[..] == s;
          return Panic;
        }
        ReadKeepsCoherent(s, disk, store, b);
        RingIgnoresCore(s, order, b, buf[b]);
        assert buf[..] == s[b := buf[b]];
      }
    }

    /** The client's stores into a buffer it holds. */
    method Fill(b: nat, data: Block)
      requires Valid() && b < NBUF && buf[b].busy
      modifies buf
      ensures Valid() && buf[b] == old(buf[b]).(data := data)
      ensures forall j :: 0 <= j < NBUF && j != b ==> buf[j] == old(buf[j])
    {
      ghost var s := buf[..];
      buf[b] := buf[b].(data := data);
      assert buf[..] == s[b := s[b].(data := data)];
      FillKeepsCoherent(s, disk, store, b, data);
      RingIgnoresCore(s, order, b, buf[b]);
    }

    /** log_write's B_DIRTY: the held contents become the block's contents, in memory only. */
    method Pin(b: nat)
      requires Valid() && b < NBUF && buf[b].busy && buf[b].valid
      modifies this`store, buf
      ensures Valid() && buf[b] == old(buf[b]).(dirty := true)
      ensures forall j :: 0 <= j < NBUF && j != b ==> buf[j] == old(buf[j])
      ensures store == old(store)[buf[b].blockno := buf[b].data]
    {
      ghost var s := buf[..];
      buf[b] := buf[b].(dirty := true);
      assert buf[..] == s[b := s[b].(dirty := true)];
      PinKeepsCoherent(s, disk, store, b);
      RingIgnoresCore(s, order, b, buf[b]);
      store := store[buf[b].blockno := buf[b].data];
    }

    /** Write a held buffer through to the disk; panics when it is not held, or names no block of the disk. */
    method Bwrite(b: nat) returns (ok: bool)
      requires Valid() && b < NBUF
      modifies this`disk, this`history, this`store, buf
      ensures ok <==> old(buf[b].busy && buf[b].dev == ROOTDEV && buf[b].blockno < |disk|)
      ensures old(buf[b].valid && buf[b].busy) ==> ok
      ensures forall j :: 0 <= j < NBUF && j != b ==> buf[j] == old(buf[j])
      ensures !ok ==> disk == old(disk) && store == old(store) && history == old(history)
      ensures ok ==>
                && Valid() && buf[b] == old(buf[b]).(dirty := false, valid := true)
                && buf[b].blockno < |old(disk)| == |old(store)|
                && disk == old(disk)[buf[b].blockno := buf[b].data] && history == old(history) + [disk]
                && store == old(store)[buf[b].blockno := buf[b].data]
    {
      if !buf[b].busy {
        return false;
      }
      ghost var s := buf[..];
      buf[b] := buf[b].(dirty := true);
      ok := Iderw(b);
      if !ok {
        return;
      }
      assert buf[..] == s[b := s[b].(dirty := false, valid := true)];
      WriteKeepsCoherent(s, old(disk), store, b);
      RingIgnoresCore(s, order, b, buf[b]);
      store := store[buf[b].blockno := buf[b].data];
    }

    /** Relink a buffer right behind the list head. */
    method MoveToFront(b: nat)
      requires Valid() && b < NBUF
      modifies this`order, buf
      ensures Valid() && SameCores(buf[..], old(buf[..])) && MovedToFront(old(order), order, b)
    {
      hide Linked, Coherent;
      assert b in order;
      ghost var k :| 0 <= k < |order| && order[k] == b;
      ghost var s, before := buf[..], order;
      MoveKeepsAll(before, k, b, [b] + (before[..k] + before[k + 1..]));
      LinkedDistinct(s, before, k);
      Detach(b, k);
      ghost var t := buf[..];
      LinkFront(b);
      SameCoresTwice(s, t, buf[..]);
      CoherentIgnoresLinks(s, buf[..], disk, store);
    }

    /** Release a held buffer; it becomes the most recently used one.  The cache stays coherent exactly if the
        contents were logged, written or left alone. */
    method Brelse(b: nat) returns (ok: bool)
      requires Valid() && b < NBUF
      modifies this`order, buf
      ensures ok <==> old(buf[b].busy)
      ensures Valid() <==> old(buf[b].busy && buf[b].valid ==> buf[b].data == store[buf[b].blockno])
      ensures forall j :: 0 <= j < NBUF && j != b ==> buf[j].Core() == old(buf[j]).Core()
      ensures buf[b].Core() == old(buf[b]).Core().(busy := false)
      ensures ok ==> MovedToFront(old(order), order, b)
      ensures !ok ==> order == old(order)
    {
      if !buf[b].busy {
        return false;
      }
      hide Linked, Coherent, MovedToFront;
      ghost var s0 := buf[..];
      InStore(s0, disk, store, b);
      MoveToFront(b);
      ghost var s := buf[..];
      assert s[b].Core() == s0[b].Core();
      buf[b] := buf[b].(busy := false);
      assert buf[..] == s[b := s[b].(busy := false)];
      ReleaseCoherent(s, disk, store, b);
      RingIgnoresCore(s, order, b, buf[b]);
      ok := true;
    }
  }
}
