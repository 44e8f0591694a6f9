/**
log.c over the buffer cache: logging a block, committing a group, and recovery.
Every disk image a commit or a recovery passes through is kept in the cache's
history, so a crash between any two block writes is one of its elements.
*/
module Log {
  import opened Blocks
  import opened Wal
  import opened BufferCache

  /** No buffer is held. */
  ghost predicate Idle(s: seq<Buf>) {
    forall i :: 0 <= i < NBUF && i < |s| ==> !s[i].busy
  }

  /** The dirty buffers are exactly the ones holding the listed blocks. */
  ghost predicate PinsExactly(s: seq<Buf>, lh: seq<nat>) {
    && (forall i :: 0 <= i < |lh| ==> Pinned(s, lh[i]))
    && (forall i :: 0 <= i < NBUF && i < |s| && s[i].dirty ==> s[i].blockno in lh)
  }

  ghost predicate TwoFree(s: seq<Buf>) {
    exists i, j :: 0 <= i < j < NBUF && j < |s| && s[i].Recyclable() && s[j].Recyclable()
  }

  /** Enough clean buffers to read both blocks. */
  ghost predicate Roomy(s: seq<Buf>, src: nat, dst: nat) {
    TwoFree(s) || (SomeFree(s) && (Pinned(s, src) || Pinned(s, dst)))
  }

  ghost predicate HeldIn(s: seq<Buf>, bn: nat) {
    exists i :: 0 <= i < NBUF && i < |s| && s[i].Is(ROOTDEV, bn) && s[i].busy
  }

  ghost predicate CachedIn(s: seq<Buf>, bn: nat) {
    exists i :: 0 <= i < NBUF && i < |s| && s[i].Is(ROOTDEV, bn)
  }

  /** Buffers hold distinct blocks, the dirty ones of the root device. */
  ghost predicate DistinctBlocks(s: seq<Buf>) {
    && (forall i, j :: 0 <= i < j < NBUF && j < |s| && s[i].dev != NODEV ==> !s[j].Is(s[i].dev, s[i].blockno))
    && (forall i :: 0 <= i < NBUF && i < |s| && s[i].dirty ==> s[i].dev == ROOTDEV)
  }

  /** Bread of block bn has taken buffer b. */
  ghost predicate Took(s: seq<Buf>, t: seq<Buf>, bn: nat, b: nat) {
    && |s| == |t| == NBUF + 1 && b < NBUF && !s[b].busy && t[b].busy && t[b].valid && t[b].Is(ROOTDEV, bn)
    && (forall j :: 0 <= j < NBUF && j != b ==> t[j] == s[j])
    && (CachedIn(s, bn) ==> s[b].Is(ROOTDEV, bn))
    && t[b].dirty == s[b].dirty && (s[b].dirty ==> t[b] == s[b].(busy := true))
  }

  /** The buffers of src and dst are held, and no others. */
  ghost predicate TookBoth(s0: seq<Buf>, t: seq<Buf>, src: nat, dst: nat, s: nat, d: nat) {
    && |s0| == |t| == NBUF + 1 && s < NBUF && d < NBUF && s != d
    && (forall i :: 0 <= i < NBUF ==> (t[i].busy <==> i == s || i == d))
    && t[s].valid && t[s].blockno == src && t[d].valid && t[d].blockno == dst
    && (forall i :: 0 <= i < NBUF ==> t[i].dirty == s0[i].dirty)
    && (forall i :: 0 <= i < NBUF && t[i].dirty ==> t[i].(busy := false) == s0[i])
  }

  lemma IdleHeld(s: seq<Buf>, bn: nat)
    requires Idle(s)
    ensures !HeldIn(s, bn)
  {
  }

  lemma RoomySome(s: seq<Buf>, src: nat, dst: nat)
    ensures Roomy(s, src, dst) ==> SomeFree(s)
  {
  }

  lemma CoherentDistinct(s: seq<Buf>, disk: Disk, store: Disk)
    requires Coherent(s, disk, store)
    ensures DistinctBlocks(s) && |store| == |disk|
  {
  }

  /** What the second of two reads will find. */
  lemma SecondRead(s: seq<Buf>, t: seq<Buf>, x: nat, y: nat, b: nat)
    requires Idle(s) && DistinctBlocks(s) && Took(s, t, x, b) && x != y
    ensures b < |t| && !HeldIn(t, y)
    ensures Roomy(s, x, y) || Roomy(s, y, x) ==> CachedIn(t, y) || SomeFree(t)
    ensures !SomeFree(s) && !CachedIn(s, y) ==> !CachedIn(t, y) && !SomeFree(t)
  {
    if TwoFree(s) {
      var i, j :| 0 <= i < j < NBUF && j < |s| && s[i].Recyclable() && s[j].Recyclable();
      assert t[if i == b then j else i].Recyclable();
    } else if SomeFree(s) && Pinned(s, y) {
      var k :| 0 <= k < NBUF && k < |s| && s[k].dirty && s[k].blockno == y;
      assert t[k].Is(ROOTDEV, y);
    } else if SomeFree(s) && Pinned(s, x) {
      var i :| 0 <= i < NBUF && i < |s| && s[i].Recyclable();
      var k :| 0 <= k < NBUF && k < |s| && s[k].dirty && s[k].blockno == x;
      assert s[k].Is(ROOTDEV, x);
      assert t[i].Recyclable();
    }
  }

  lemma BothTaken(s0: seq<Buf>, s1: seq<Buf>, s2: seq<Buf>, x: nat, y: nat, b1: nat, b2: nat)
    requires Idle(s0) && Took(s0, s1, x, b1) && Took(s1, s2, y, b2)
    ensures TookBoth(s0, s2, x, y, b1, b2) && TookBoth(s0, s2, y, x, b2, b1) && b1 < |s1| && b1 < |s2| && s2[b1] == s1[b1]
  {
    hide CachedIn;
  }

  /** Every image of h from index lo up to hi recovers to target's home blocks. */
  ghost predicate AllMean(a: Area, h: seq<Disk>, lo: nat, hi: nat, target: Disk) {
    forall j :: lo <= j < hi && j < |h| ==> Sound(a, h[j]) && SameHome(a, Recover(a, h[j]), target)
  }

  /** Every image of h from index lo on recovers to exactly r. */
  ghost predicate AllRecoverTo(a: Area, h: seq<Disk>, lo: nat, r: Disk) {
    forall j :: lo <= j < |h| ==> Sound(a, h[j]) && Recover(a, h[j]) == r
  }

  lemma NoneYet(a: Area, h: seq<Disk>, r: Disk)
    ensures AllRecoverTo(a, h, |h|, r)
  {
  }

  lemma AllRecoverToExtends(a: Area, h: seq<Disk>, lo: nat, r: Disk, d: Disk)
    requires AllRecoverTo(a, h, lo, r) && Sound(a, d) && Recover(a, d) == r
    ensures AllRecoverTo(a, h + [d], lo, r)
  {
  }

  lemma AllMeanExtends(a: Area, h: seq<Disk>, lo: nat, target: Disk, d: Disk)
    requires AllMean(a, h, lo, |h|, target) && lo <= |h| && Sound(a, d) && SameHome(a, Recover(a, d), target)
    ensures AllMean(a, h + [d], lo, |h| + 1, target)
  {
  }

  /** Outside the listed blocks, store and disk agree. */
  lemma UnlistedAgree(s: seq<Buf>, disk: Disk, store: Disk, lh: seq<nat>, bn: nat)
    requires Coherent(s, disk, store) && PinsExactly(s, lh) && bn < |disk| && bn !in lh
    ensures store[bn] == disk[bn]
  {
  }

  /** During install_trans the blocks from index k on are still pinned; recovery starts with none. */
  ghost predicate PinsFrom(s: seq<Buf>, lh: seq<nat>, k: nat, pinned: bool)
    requires k <= |lh|
  {
    PinsExactly(s, if pinned then lh[k..] else [])
  }

  lemma PinsFromStart(s: seq<Buf>, lh: seq<nat>, pinned: bool)
    requires PinsExactly(s, if pinned then lh else [])
    ensures PinsFrom(s, lh, 0, pinned)
  {
    assert lh[0..] == lh;
  }

  /** Writing the kth listed block home unpins it and nothing else. */
  lemma UnpinNext(s: seq<Buf>, t: seq<Buf>, lh: seq<nat>, k: nat, pinned: bool)
    requires k < |lh| && Distinct(lh) && PinsFrom(s, lh, k, pinned) && Unpinned(s, t, lh[k])
    ensures PinsFrom(t, lh, k + 1, pinned)
  {
    if pinned {
      assert lh[k..][0] == lh[k] && lh[k..][1..] == lh[k + 1..];
      UnpinFirst(s, t, lh[k..]);
    } else {
      StillPins(s, t, [], lh[k]);
    }
  }

  lemma NextPinned(s: seq<Buf>, lh: seq<nat>, k: nat)
    requires k < |lh| && PinsFrom(s, lh, k, true)
    ensures Pinned(s, lh[k])
  {
    assert lh[k..][0] == lh[k];
  }

  lemma NoneLeft(s: seq<Buf>, lh: seq<nat>, pinned: bool)
    requires PinsFrom(s, lh, |lh|, pinned)
    ensures PinsExactly(s, [])
  {
    assert lh[|lh|..] == [];
  }

  lemma UnpinFirst(s: seq<Buf>, t: seq<Buf>, lh: seq<nat>)
    requires |lh| > 0 && Distinct(lh) && PinsExactly(s, lh) && Unpinned(s, t, lh[0])
    ensures PinsExactly(t, lh[1..])
  {
    forall i | 0 <= i < |lh[1..]| ensures Pinned(t, lh[1..][i]) {
      assert Pinned(s, lh[i + 1]);
      var j :| 0 <= j < NBUF && s[j].dirty && s[j].blockno == lh[i + 1];
      assert t[j].Core() == s[j].Core();
      assert t[j].blockno == t[j].Core().blockno;
    }
    forall i | 0 <= i < NBUF && t[i].dirty ensures t[i].blockno in lh[1..] {
      assert t[i].Core() == s[i].Core();
      assert t[i].blockno == s[i].Core().blockno;
    }
  }

  /** Pins survive a copy to a block outside the list. */
  lemma StillPins(s: seq<Buf>, t: seq<Buf>, lh: seq<nat>, dst: nat)
    requires PinsExactly(s, lh) && dst !in lh && Unpinned(s, t, dst)
    ensures PinsExactly(t, lh)
  {
    forall i | 0 <= i < |lh| ensures Pinned(t, lh[i]) {
      assert Pinned(s, lh[i]);
      var j :| 0 <= j < NBUF && s[j].dirty && s[j].blockno == lh[i];
      assert t[j].Core() == s[j].Core();
      assert t[j].blockno == t[j].Core().blockno;
    }
    forall i | 0 <= i < NBUF && t[i].dirty ensures t[i].blockno in lh {
      assert t[i].Core() == s[i].Core();
      assert t[i].blockno == s[i].Core().blockno;
    }
  }

  /** A buffer that could be recycled still can after a copy. */
  lemma StillFree(s: seq<Buf>, t: seq<Buf>, dst: nat)
    requires Idle(t) && Unpinned(s, t, dst)
    ensures SomeFree(s) ==> SomeFree(t)
    ensures TwoFree(s) ==> TwoFree(t)
  {
  }

  /** write_log after k rounds: k slots filled from the store, nothing else touched. */
  ghost predicate SlotsFilled(a: Area, lh: seq<nat>, disk0: Disk, store0: Disk, disk: Disk, store: Disk, k: nat) {
    && a.Fits(disk) && |store| == |disk| && Loggable(a, lh, |disk|) && k <= |lh|
    && |disk0| == |store0| == |disk|
    && disk[a.start] == disk0[a.start] && store[a.start] == store0[a.start] && Word(disk[a.start], 0) == 0
    && SameHome(a, disk, disk0) && SameHome(a, store, store0)
    && forall i :: 0 <= i < k ==> disk[a.start + 1 + i] == store[lh[i]]
  }

  lemma SlotBounds(a: Area, lh: seq<nat>, disk0: Disk, store0: Disk, disk: Disk, store: Disk, k: nat, s: seq<Buf>)
    requires SlotsFilled(a, lh, disk0, store0, disk, store, k) && k < |lh| && |s| == NBUF + 1 && Idle(s) && PinsExactly(s, lh)
    ensures Pinned(s, lh[k]) && lh[k] < |disk| == |store| && a.start + 1 + k < |disk| && a.start + 1 + k !in lh
    ensures if SomeFree(s) then Roomy(s, lh[k], a.start + 1 + k) else !CachedIn(s, a.start + 1 + k)
  {
    if !SomeFree(s) {
      SlotNotCached(s, lh, a.start + 1 + k);
    }
  }

  lemma InstallBounds(a: Area, lh: seq<nat>, disk0: Disk, store0: Disk, disk: Disk, store: Disk, k: nat)
    requires Installing(a, lh, disk0, store0, disk, store, k) && k < |lh|
    ensures lh[k] < |disk| && a.start + 1 + k < |disk| && a.start + 1 + k != lh[k]
  {
  }

  /** When every buffer is pinned, none holds a block outside the list. */
  lemma SlotNotCached(s: seq<Buf>, lh: seq<nat>, slot: nat)
    requires |s| == NBUF + 1 && Idle(s) && PinsExactly(s, lh) && !SomeFree(s) && slot !in lh
    ensures forall i :: 0 <= i < NBUF ==> !s[i].Is(ROOTDEV, slot)
  {
    forall i | 0 <= i < NBUF ensures s[i].blockno != slot {
      assert !s[i].Recyclable();
    }
  }

  lemma FillSlot(a: Area, lh: seq<nat>, disk0: Disk, store0: Disk, disk: Disk, store: Disk, k: nat)
    requires SlotsFilled(a, lh, disk0, store0, disk, store, k) && k < |lh|
    ensures var slot := a.start + 1 + k;
            && SlotsFilled(a, lh, disk0, store0, disk[slot := store[lh[k]]], store[slot := store[lh[k]]], k + 1)
            && Sound(a, disk[slot := store[lh[k]]])
            && SameHome(a, Recover(a, disk[slot := store[lh[k]]]), disk0)
  {
    SlotWriteInvisible(a, disk, k, store[lh[k]]);
  }

  /** The dirty buffers of t are those of s that hold other blocks than dst, unchanged. */
  ghost predicate Unpinned(s: seq<Buf>, t: seq<Buf>, dst: nat) {
    && |s| == |t| == NBUF + 1
    && (forall i :: 0 <= i < NBUF ==> (t[i].dirty <==> s[i].dirty && s[i].blockno != dst))
    && (forall i :: 0 <= i < NBUF && t[i].dirty ==> t[i].Core() == s[i].Core())
  }

  /** install_trans after k rounds: k slots copied home, the recovered image unchanged. */
  ghost predicate Installing(a: Area, lh: seq<nat>, disk0: Disk, store0: Disk, disk: Disk, store: Disk, k: nat) {
    && Sound(a, disk0) && Sound(a, disk) && Head(disk[a.start]) == lh && k <= |lh|
    && |disk| == |disk0| == |store| == |store0|
    && Recover(a, disk) == Recover(a, disk0)
    && (forall b :: 0 <= b < |disk| && a.Contains(b) ==> store[b] == disk[b])
    && (forall b :: 0 <= b < |disk| && b !in lh ==> disk[b] == disk0[b] && store[b] == store0[b])
    && (forall i :: 0 <= i < k ==> disk[lh[i]] == disk[a.start + 1 + i] && store[lh[i]] == disk[lh[i]])
  }

  lemma InstallingMeans(a: Area, lh: seq<nat>, disk0: Disk, store0: Disk, disk: Disk, store: Disk, k: nat)
    requires Installing(a, lh, disk0, store0, disk, store, k)
    ensures Sound(a, disk0) && Sound(a, disk) && Recover(a, disk) == Recover(a, disk0) && Distinct(lh)
  {
  }

  lemma InstallOne(a: Area, lh: seq<nat>, disk0: Disk, store0: Disk, disk: Disk, store: Disk, k: nat)
    requires Installing(a, lh, disk0, store0, disk, store, k) && k < |lh|
    ensures var v := store[a.start + 1 + k];
            Installing(a, lh, disk0, store0, disk[lh[k] := v], store[lh[k] := v], k + 1)
  {
    hide Recover, Word;
    InstallKeepsMeaning(a, disk, k);
  }

  lemma ClearInstalled(a: Area, lh: seq<nat>, disk0: Disk, store0: Disk, disk: Disk, store: Disk)
    requires Installing(a, lh, disk0, store0, disk, store, |lh|)
    ensures var e := disk[a.start := PutHead(disk[a.start], [])];
            Sound(a, e) && Word(e[a.start], 0) == 0 && Recover(a, e) == Recover(a, disk0) == e
  {
    ClearKeepsMeaning(a, disk);
    HeadRoundTrip(disk[a.start], []);
  }

  /** With nothing pinned the disk is the store. */
  lemma NothingPinned(s: seq<Buf>, disk: Disk, store: Disk)
    requires Coherent(s, disk, store) && PinsExactly(s, [])
    ensures store == disk && forall bn :: !Pinned(s, bn)
  {
    forall bn | 0 <= bn < |disk| ensures store[bn] == disk[bn] {
      UnlistedAgree(s, disk, store, [], bn);
    }
  }

  lemma NoneMean(a: Area, h: seq<Disk>, hi: nat, target: Disk)
    requires |h| <= hi
    ensures AllMean(a, h, |h|, hi, target) && AllMean(a, h, hi, |h|, target)
  {
  }

  /** Images that mean disk0, then one that means store0. */
  lemma AllMeanSwitch(a: Area, h: seq<Disk>, lo: nat, disk0: Disk, store0: Disk, d: Disk)
    requires AllMean(a, h, lo, |h|, disk0) && Sound(a, d) && SameHome(a, Recover(a, d), store0)
    ensures AllMean(a, h + [d], lo, |h|, disk0) && AllMean(a, h + [d], |h|, |h| + 1, store0)
  {
  }

  /** With every slot filled, writing the header makes the store the disk's meaning. */
  lemma CommitPoint(a: Area, lh: seq<nat>, s: seq<Buf>, disk0: Disk, store0: Disk, disk: Disk, store: Disk)
    requires SlotsFilled(a, lh, disk0, store0, disk, store, |lh|)
    requires Coherent(s, disk, store) && PinsExactly(s, lh)
    ensures store[a.start] == disk[a.start] && !Pinned(s, a.start)
    ensures var e := disk[a.start := PutHead(disk[a.start], lh)];
            var f := store[a.start := e[a.start]];
            && Sound(a, e) && SameHome(a, Recover(a, e), store0)
            && Installing(a, lh, e, f, e, f, 0)
  {
    forall bn | 0 <= bn < |disk| && bn !in lh ensures store[bn] == disk[bn] {
      UnlistedAgree(s, disk, store, lh, bn);
    }
    HeaderWriteCommits(a, disk, lh, store);
  }

  // ---- counting buffers ----

  ghost function Below(k: nat): (r: set<nat>)
    ensures |r| == k && forall i :: i in r <==> 0 <= i < k
  {
    if k == 0 then {} else Below(k - 1) + {k - 1}
  }

  ghost function Elements(lh: seq<nat>): (r: set<nat>) {
    set b | b in lh
  }

  lemma {:induction false} ListSize(lh: seq<nat>)
    requires Distinct(lh)
    ensures |Elements(lh)| == |lh|
  {
    if lh != [] {
      var rest, x := lh[..|lh| - 1], lh[|lh| - 1];
      ListSize(rest);
      assert lh == rest + [x];
      assert Elements(lh) == Elements(rest) + {x};
      assert x !in Elements(rest);
    }
  }

  ghost function BlocksOf(s: seq<Buf>, d: set<nat>): (r: set<nat>)
    requires forall i :: i in d ==> i < |s|
  {
    set i | i in d :: s[i].blockno
  }

  /** As many pinned blocks as pinned buffers, when no block is pinned twice. */
  lemma {:induction false} ImageSize(s: seq<Buf>, d: set<nat>)
    requires forall i :: i in d ==> i < |s|
    requires forall i, j :: i in d && j in d && i != j ==> s[i].blockno != s[j].blockno
    ensures |BlocksOf(s, d)| == |d|
  {
    if d != {} {
      var x :| x in d;
      ImageSize(s, d - {x});
      assert BlocksOf(s, d) == BlocksOf(s, d - {x}) + {s[x].blockno};
    }
  }

  lemma PinnedBlocks(s: seq<Buf>, disk: Disk, store: Disk, lh: seq<nat>, d: set<nat>)
    requires Coherent(s, disk, store) && PinsExactly(s, lh)
    requires forall i: nat :: i in d <==> i < NBUF && s[i].dirty
    ensures BlocksOf(s, d) == Elements(lh) && |BlocksOf(s, d)| == |d|
  {
    forall i, j | i in d && j in d && i != j ensures s[i].blockno != s[j].blockno {
      SoleHolder(s, disk, store, i, j);
    }
    ImageSize(s, d);
    forall b | b in lh ensures b in BlocksOf(s, d) {
      var k :| 0 <= k < |lh| && lh[k] == b;
      assert Pinned(s, lh[k]);
    }
  }

  /** With no buffer held, one is free unless the log has pinned all NBUF of them. */
  lemma FreeUnlessFull(s: seq<Buf>, disk: Disk, store: Disk, lh: seq<nat>)
    requires Coherent(s, disk, store) && Idle(s) && PinsExactly(s, lh) && Distinct(lh)
    ensures SomeFree(s) <==> |lh| < NBUF
  {
    var d := set i: nat | i < NBUF && s[i].dirty;
    PinnedBlocks(s, disk, store, lh, d);
    ListSize(lh);
    FreeIffNotAll(s, d);
  }

  lemma FreeIffNotAll(s: seq<Buf>, d: set<nat>)
    requires |s| == NBUF + 1 && Idle(s) && forall i: nat :: i in d <==> i < NBUF && s[i].dirty
    ensures SomeFree(s) <==> |d| < NBUF
  {
    if d == Below(NBUF) {
    } else {
      if |d| >= NBUF {
        Subset(d, Below(NBUF));
      }
      var x :| x in Below(NBUF) && x !in d;
      assert s[x].Recyclable();
    }
  }

  lemma Subset(d: set<nat>, all: set<nat>)
    requires d <= all && |d| >= |all|
    ensures d == all
  {
    assert all == d + (all - d);
  }

  lemma SameHomeReflexive(a: Area, d: Disk)
    ensures SameHome(a, d, d)
  {
  }

  /** Images that all recover to r extend a run whose tail means store0. */
  lemma MeanThenRecover(a: Area, h1: seq<Disk>, h2: seq<Disk>, lo: nat, k: nat, disk0: Disk, store0: Disk, r: Disk)
    requires h1 <= h2 && lo <= k <= |h1|
    requires AllMean(a, h1, lo, k, disk0) && AllMean(a, h1, k, |h1|, store0)
    requires AllRecoverTo(a, h2, |h1|, r) && SameHome(a, r, store0)
    ensures AllMean(a, h2, lo, k, disk0) && AllMean(a, h2, k, |h2|, store0)
  {
    assert forall j :: 0 <= j < |h1| ==> h2[j] == h1[j];
  }

  lemma TwoMeansSome(s: seq<Buf>)
    ensures TwoFree(s) ==> SomeFree(s)
  {
  }

  lemma AllClean(s: seq<Buf>)
    requires PinsExactly(s, []) && TwoFree(s)
    ensures SomeFree(s) && forall i :: 0 <= i < NBUF && i < |s| ==> !s[i].dirty
  {
  }

  lemma SoundHead(a: Area, d: Disk)
    requires Sound(a, d)
    ensures a.start < |d| && Word(d[a.start], 0) <= LOGSIZE
  {
  }

  lemma InRange(s: seq<Buf>, disk: Disk, store: Disk, b: nat)
    requires Coherent(s, disk, store) && b < NBUF && s[b].valid
    ensures s[b].blockno < |disk|
  {
  }

  lemma PinOne(s: seq<Buf>, t: seq<Buf>, lh: seq<nat>, b: nat)
    requires |s| == |t| == NBUF + 1 && PinsExactly(s, lh) && b < NBUF && t[b] == s[b].(dirty := true)
    requires forall i :: 0 <= i < NBUF && i != b ==> t[i] == s[i]
    ensures PinsExactly(t, if s[b].blockno in lh then lh else lh + [s[b].blockno])
  {
    var more := if s[b].blockno in lh then lh else lh + [s[b].blockno];
    forall k | 0 <= k < |more| ensures Pinned(t, more[k]) {
      if k < |lh| {
        assert Pinned(s, lh[k]);
        var i :| 0 <= i < NBUF && s[i].dirty && s[i].blockno == lh[k];
        assert t[i].dirty && t[i].blockno == lh[k];
      } else {
        assert t[b].dirty;
      }
    }
  }

  datatype EndResult = CommittingPanic | StillOpen | Committed | NoBuffers

  class Log {
    const cache: Bcache
    const area: Area
    var outstanding: int
    var committing: bool
    var n: nat
    const block: array<nat>

    ghost predicate Shape()
      reads this, block, cache, cache.buf
    {
      && cache.Valid() && cache.buf != block as object
      && block.Length == LOGSIZE && n <= LOGSIZE
      && area.Fits(cache.disk)
    }

    /** log.lh as a list. */
    ghost function Lh(): (lh: seq<nat>)
      requires block.Length == LOGSIZE && n <= LOGSIZE
      reads this, block
    {
      block[..n]
    }

    /** The static log record before initlog has read the disk's header. */
    constructor (cache: Bcache, area: Area)
      requires cache.Valid() && area.Fits(cache.disk)
      ensures Shape() && this.cache == cache && this.area == area && fresh(block)
      ensures n == 0 && outstanding == 0 && !committing
    {
      this.cache, this.area := cache, area;
      outstanding, committing, n := 0, false, 0;
      block := new nat[LOGSIZE](_ => 0);
    }

    /** Bread, of a block nobody holds. */
    method ReadOne(bn: nat) returns (ok: bool, b: nat)
      requires Shape() && bn < |cache.disk| && !HeldIn(cache.buf[..], bn)
      modifies cache, cache.buf
      ensures Shape() && cache.disk == old(cache.disk) && cache.store == old(cache.store) && cache.history == old(cache.history)
      ensures ok <==> old(CachedIn(cache.buf[..], bn) || SomeFree(cache.buf[..]))
      ensures ok ==> Took(old(cache.buf[..]), cache.buf[..], bn, b) && cache.buf[b].data == cache.store[bn]
    {
      hide Linked, Coherent;
      b := 0;
      var r := cache.Bread(ROOTDEV, bn);
      ok := r.Got?;
      if ok {
        b := r.b;
      }
    }

    /** Bread two blocks, in either order. */
    method ReadPair(src: nat, dst: nat, dstFirst: bool) returns (ok: bool, s: nat, d: nat)
      requires Shape() && Idle(cache.buf[..]) && src != dst && src < |cache.disk| && dst < |cache.disk|
      modifies cache, cache.buf
      ensures Shape() && cache.disk == old(cache.disk) && cache.store == old(cache.store) && cache.history == old(cache.history)
      ensures old(Roomy(cache.buf[..], src, dst)) ==> ok
      ensures old(!SomeFree(cache.buf[..]) && !CachedIn(cache.buf[..], dst)) ==> !ok
      ensures ok ==> TookBoth(old(cache.buf[..]), cache.buf[..], src, dst, s, d) && cache.buf[s].data == cache.store[src]
    {
      hide Linked, Coherent, Idle, HeldIn, CachedIn, SomeFree, Roomy, Took, TookBoth;
      ghost var s0 := cache.buf[..];
      s, d := 0, 0;
      var x, y := if dstFirst then dst else src, if dstFirst then src else dst;
      IdleHeld(s0, x);
      RoomySome(s0, src, dst);
      var b1, b2;
      ok, b1 := ReadOne(x);
      if !ok {
        return;
      }
      ghost var s1 := cache.buf[..];
      CoherentDistinct(s0, old(cache.disk), old(cache.store));
      SecondRead(s0, s1, x, y, b1);
      assert s1[b1].data == cache.store[x];
      ok, b2 := ReadOne(y);
      if !ok {
        return;
      }
      BothTaken(s0, s1, cache.buf[..], x, y, b1, b2);
      assert cache.buf[..][b1].data == cache.store[x];
      s, d := if dstFirst then b2 else b1, if dstFirst then b1 else b2;
    }

    /** Bread both blocks, copy src over dst, write dst to disk, release both. */
    method Copy(src: nat, dst: nat, dstFirst: bool) returns (ok: bool)
      requires Shape() && Idle(cache.buf[..]) && src != dst && src < |cache.disk| && dst < |cache.disk|
      modifies cache, cache.buf
      ensures Shape()
      ensures old(Roomy(cache.buf[..], src, dst)) ==> ok
      ensures old(!SomeFree(cache.buf[..]) && !CachedIn(cache.buf[..], dst)) ==> !ok
      ensures !ok ==> cache.disk == old(cache.disk) && cache.store == old(cache.store) && cache.history == old(cache.history)
      ensures ok ==>
                && Idle(cache.buf[..])
                && cache.disk == old(cache.disk[dst := cache.store[src]])
                && cache.store == old(cache.store[dst := cache.store[src]])
                && cache.history == old(cache.history) + [cache.disk]
                && Unpinned(old(cache.buf[..]), cache.buf[..], dst)
    {
      var s, d;
      ok, s, d := ReadPair(src, dst, dstFirst);
      if !ok { return; }
      CopyHeld(s, d);
    }

    /** Copy one held buffer over another, write the latter to disk, release both. */
    method CopyHeld(s: nat, d: nat)
      requires Shape() && s < NBUF && d < NBUF && s != d
      requires forall i :: 0 <= i < NBUF ==> (cache.buf[i].busy <==> i == s || i == d)
      requires cache.buf[s].valid && cache.buf[d].valid && cache.buf[s].data == cache.store[cache.buf[s].blockno]
      requires cache.buf[s].blockno != cache.buf[d].blockno
      modifies cache, cache.buf
      ensures Shape() && Idle(cache.buf[..])
      ensures cache.disk == old(cache.disk[cache.buf[d].blockno := cache.buf[s].data])
      ensures cache.store == old(cache.store[cache.buf[d].blockno := cache.buf[s].data])
      ensures cache.history == old(cache.history) + [cache.disk]
      ensures forall i :: 0 <= i < NBUF ==> (cache.buf[i].dirty <==> old(cache.buf[i].dirty) && i != d)
      ensures forall i :: 0 <= i < NBUF && i != d ==> cache.buf[i].Core() == old(cache.buf[i]).Core().(busy := false)
    {
      hide Linked;
      cache.Fill(d, cache.buf[s].data);
      var w := cache.Bwrite(d);
      var r := cache.Brelse(s);
      r := cache.Brelse(d);
    }

    /** What begin_op, log_write and end_op keep while no commit is under way: the on-disk
        header is empty and the logged blocks, and only they, are pinned in the cache. */
    ghost predicate Logged()
      requires Shape()
      reads this, block, cache, cache.buf
    {
      && Loggable(area, Lh(), |cache.disk|)
      && PinsExactly(cache.buf[..], Lh())
      && Word(cache.disk[area.start], 0) == 0
    }

    /** One round of write_log. */
    method WriteSlot(tail: nat, ghost disk0: Disk, ghost store0: Disk) returns (ok: bool)
      requires Shape() && Idle(cache.buf[..]) && tail < n && PinsExactly(cache.buf[..], Lh())
      requires SlotsFilled(area, Lh(), disk0, store0, cache.disk, cache.store, tail)
      modifies cache, cache.buf
      ensures Shape() && (old(SomeFree(cache.buf[..])) ==> ok)
      ensures old(!SomeFree(cache.buf[..])) ==> !ok
      ensures !ok ==> cache.disk == old(cache.disk) && cache.history == old(cache.history)
      ensures ok ==>
                && Idle(cache.buf[..]) && PinsExactly(cache.buf[..], Lh()) && SomeFree(cache.buf[..])
                && SlotsFilled(area, Lh(), disk0, store0, cache.disk, cache.store, tail + 1)
                && cache.history == old(cache.history) + [cache.disk]
                && Sound(area, cache.disk) && SameHome(area, Recover(area, cache.disk), disk0)
    {
      ghost var disk, store, s := cache.disk, cache.store, cache.buf[..];
      hide Linked, Coherent, Recover, PinsExactly, Pinned, SlotsFilled, SomeFree, Roomy, CachedIn, Sound, SameHome, Distinct, Loggable, Unpinned, Idle;
      ghost var lh, slot := Lh(), area.start + 1 + tail;
      SlotBounds(area, lh, disk0, store0, disk, store, tail, s);
      FillSlot(area, lh, disk0, store0, disk, store, tail);
      ok := Copy(block[tail], area.start + tail + 1, true);
      assert Lh() == lh;
      if !ok { return; }
      assert cache.disk == disk[slot := store[lh[tail]]] && cache.store == store[slot := store[lh[tail]]];
      StillPins(s, cache.buf[..], lh, slot);
      StillFree(s, cache.buf[..], slot);
    }

    /** Copy every logged block from the cache to its slot. */
    method WriteLog() returns (ok: bool)
      requires Shape() && Idle(cache.buf[..]) && Logged()
      modifies cache, cache.buf
      ensures Shape() && |cache.disk| == |old(cache.disk)| && old(cache.history) <= cache.history
      ensures ok <==> n == 0 || old(SomeFree(cache.buf[..]))
      ensures !ok ==> cache.history == old(cache.history)
      ensures AllMean(area, cache.history, |old(cache.history)|, |cache.history|, old(cache.disk))
      ensures ok ==>
                && Idle(cache.buf[..]) && PinsExactly(cache.buf[..], Lh())
                && (n > 0 ==> SomeFree(cache.buf[..]))
                && |cache.history| == |old(cache.history)| + n
                && SlotsFilled(area, Lh(), old(cache.disk), old(cache.store), cache.disk, cache.store, n)
    {
      ghost var disk0, store0, h0 := cache.disk, cache.store, cache.history;
      var tail := 0;
      while tail < n
        invariant 0 <= tail <= n && Shape() && Idle(cache.buf[..])
        invariant PinsExactly(cache.buf[..], Lh())
        invariant SlotsFilled(area, Lh(), disk0, store0, cache.disk, cache.store, tail)
        invariant h0 <= cache.history && |cache.history| == |h0| + tail
        invariant AllMean(area, cache.history, |h0|, |cache.history|, disk0)
        invariant SomeFree(cache.buf[..]) <==> old(SomeFree(cache.buf[..]))
        invariant tail > 0 ==> SomeFree(cache.buf[..])
      {
        ghost var h := cache.history;
        ok := WriteSlot(tail, disk0, store0);
        if !ok { return; }
        AllMeanExtends(area, h, |h0|, disk0, cache.disk);
        tail := tail + 1;
      }
      ok := true;
    }

    /** Write the in-memory list into the header block on disk. */
    method WriteHead() returns (ok: bool)
      requires Shape() && Idle(cache.buf[..]) && Loggable(area, Lh(), |cache.disk|)
      requires !Pinned(cache.buf[..], area.start) && cache.store[area.start] == cache.disk[area.start]
      modifies cache, cache.buf
      ensures Shape() && (old(SomeFree(cache.buf[..])) ==> ok)
      ensures !ok ==> cache.disk == old(cache.disk) && cache.history == old(cache.history)
      ensures ok ==>
                && Idle(cache.buf[..])
                && cache.disk == old(cache.disk)[area.start := PutHead(old(cache.disk)[area.start], Lh())]
                && cache.store == old(cache.store)[area.start := cache.disk[area.start]]
                && cache.history == old(cache.history) + [cache.disk]
                && Unpinned(old(cache.buf[..]), cache.buf[..], area.start)
    {
      hide Linked;
      var r := cache.Bread(ROOTDEV, area.start);
      if !r.Got? { return false; }
      var hb := EncodeHead(cache.buf[r.b].data);
      cache.Fill(r.b, hb);
      var w := cache.Bwrite(r.b);
      w := cache.Brelse(r.b);
      ok := true;
    }

    /** The stores write_head makes into the held header block. */
    method EncodeHead(b: Block) returns (hb: Block)
      requires block.Length == LOGSIZE && n <= LOGSIZE && forall i :: 0 <= i < n ==> block[i] < WORD
      ensures hb == PutHead(b, Lh())
    {
      hb := SetWord(b, 0, n);
      var i := 0;
      while i < n
        invariant 0 <= i <= n && hb == PutEntries(SetWord(b, 0, n), Lh(), i)
      {
        hb := SetWord(hb, i + 1, block[i]);
        i := i + 1;
      }
    }

    /** One round of install_trans. */
    method InstallSlot(tail: nat, ghost disk0: Disk, ghost store0: Disk) returns (ok: bool)
      requires Shape() && Idle(cache.buf[..]) && tail < n
      requires Installing(area, Lh(), disk0, store0, cache.disk, cache.store, tail)
      modifies cache, cache.buf
      ensures Shape()
      ensures old(TwoFree(cache.buf[..]) || (SomeFree(cache.buf[..]) && Pinned(cache.buf[..], block[tail]))) ==> ok
      ensures !ok ==> cache.disk == old(cache.disk) && cache.history == old(cache.history)
      ensures ok ==>
                && Idle(cache.buf[..])
                && Installing(area, Lh(), disk0, store0, cache.disk, cache.store, tail + 1)
                && cache.history == old(cache.history) + [cache.disk]
                && Unpinned(old(cache.buf[..]), cache.buf[..], block[tail])
    {
      hide Linked, Coherent, Recover, Installing, Sound, Loggable, Unpinned, Idle, Pinned, SomeFree, TwoFree;
      ghost var disk, store := cache.disk, cache.store;
      InstallBounds(area, Lh(), disk0, store0, disk, store, tail);
      ok := Copy(area.start + tail + 1, block[tail], false);
      if !ok { return; }
      InstallOne(area, Lh(), disk0, store0, disk, store, tail);
    }

    /** Copy every slot to its home block. */
    method InstallTrans() returns (ok: bool)
      requires Shape() && Idle(cache.buf[..])
      requires Installing(area, Lh(), cache.disk, cache.store, cache.disk, cache.store, 0)
      requires PinsExactly(cache.buf[..], Lh()) || PinsExactly(cache.buf[..], [])
      modifies cache, cache.buf
      ensures Shape() && old(cache.history) <= cache.history
      ensures AllRecoverTo(area, cache.history, |old(cache.history)|, Recover(area, old(cache.disk)))
      ensures old(TwoFree(cache.buf[..]) || (SomeFree(cache.buf[..]) && PinsExactly(cache.buf[..], Lh()))) ==> ok
      ensures ok ==>
                && Idle(cache.buf[..]) && PinsExactly(cache.buf[..], [])
                && (old(SomeFree(cache.buf[..])) ==> SomeFree(cache.buf[..]))
                && |cache.history| == |old(cache.history)| + n
                && Installing(area, Lh(), old(cache.disk), old(cache.store), cache.disk, cache.store, n)
    {
      hide Linked, Coherent, Recover, PinsExactly, PinsFrom, Unpinned, SomeFree, TwoFree, Idle, AllRecoverTo, Installing, Sound, Pinned, Distinct;
      ghost var disk0, store0, h0, pinned := cache.disk, cache.store, cache.history, PinsExactly(cache.buf[..], Lh());
      PinsFromStart(cache.buf[..], Lh(), pinned);
      InstallingMeans(area, Lh(), disk0, store0, disk0, store0, 0);
      ghost var goal := Recover(area, disk0);
      NoneYet(area, h0, goal);
      var tail := 0;
      while tail < n
        invariant 0 <= tail <= n && Shape() && Idle(cache.buf[..])
        invariant Installing(area, Lh(), disk0, store0, cache.disk, cache.store, tail)
        invariant h0 <= cache.history && |cache.history| == |h0| + tail
        invariant AllRecoverTo(area, cache.history, |h0|, goal)
        invariant PinsFrom(cache.buf[..], Lh(), tail, pinned)
        invariant old(SomeFree(cache.buf[..])) ==> SomeFree(cache.buf[..])
        invariant old(TwoFree(cache.buf[..])) ==> TwoFree(cache.buf[..])
      {
        ghost var s, h := cache.buf[..], cache.history;
        if pinned {
          NextPinned(s, Lh(), tail);
        }
        ok := InstallSlot(tail, disk0, store0);
        if !ok { return; }
        InstallingMeans(area, Lh(), disk0, store0, cache.disk, cache.store, tail + 1);
        AllRecoverToExtends(area, h, |h0|, goal, cache.disk);
        StillFree(s, cache.buf[..], block[tail]);
        UnpinNext(s, cache.buf[..], Lh(), tail, pinned);
        tail := tail + 1;
      }
      NoneLeft(cache.buf[..], Lh(), pinned);
      ok := true;
    }

    /** The tail of commit and of recover_from_log: install, then erase the list. */
    method InstallAndClear() returns (ok: bool)
      requires Shape() && Idle(cache.buf[..])
      requires Installing(area, Lh(), cache.disk, cache.store, cache.disk, cache.store, 0)
      requires PinsExactly(cache.buf[..], Lh()) || PinsExactly(cache.buf[..], [])
      modifies this`n, cache, cache.buf
      ensures Shape() && old(cache.history) <= cache.history
      ensures AllRecoverTo(area, cache.history, |old(cache.history)|, Recover(area, old(cache.disk)))
      ensures old(TwoFree(cache.buf[..]) || (SomeFree(cache.buf[..]) && PinsExactly(cache.buf[..], Lh()))) ==> ok
      ensures ok ==>
                && n == 0 && Idle(cache.buf[..]) && PinsExactly(cache.buf[..], [])
                && |cache.history| == |old(cache.history)| + old(n) + 1
                && cache.disk == Recover(area, old(cache.disk)) && cache.store == cache.disk
                && Word(cache.disk[area.start], 0) == 0
    {
      hide Linked, Coherent, Recover, PinsExactly, Unpinned, SomeFree, TwoFree, Idle, AllRecoverTo, PutHead, Installing, Pinned;
      ghost var lh, disk0, store0, h0 := Lh(), cache.disk, cache.store, cache.history;
      TwoMeansSome(cache.buf[..]);
      ok := InstallTrans();
      if !ok { return; }
      n := 0;
      ghost var disk, store, h, s := cache.disk, cache.store, cache.history, cache.buf[..];
      NothingPinned(s, disk, store);
      ok := WriteHead();
      if !ok { return; }
      ClearInstalled(area, lh, disk0, store0, disk, store);
      StillPins(s, cache.buf[..], [], area.start);
      NothingPinned(cache.buf[..], cache.disk, cache.store);
      InstallingMeans(area, lh, disk0, store0, disk0, store0, 0);
      AllRecoverToExtends(area, h, |h0|, Recover(area, disk0), cache.disk);
    }

    /** The first half of commit: fill the slots, then write the header. */
    method WriteLogAndHead() returns (ok: bool)
      requires Shape() && Idle(cache.buf[..]) && Logged() && n > 0
      modifies cache, cache.buf
      ensures Shape() && old(cache.history) <= cache.history
      ensures ok <==> old(SomeFree(cache.buf[..]))
      ensures AllMean(area, cache.history, |old(cache.history)|, |old(cache.history)| + n, old(cache.disk))
      ensures AllMean(area, cache.history, |old(cache.history)| + n, |cache.history|, old(cache.store))
      ensures ok ==>
                && |cache.history| == |old(cache.history)| + n + 1
                && Idle(cache.buf[..]) && PinsExactly(cache.buf[..], Lh()) && SomeFree(cache.buf[..])
                && Installing(area, Lh(), cache.disk, cache.store, cache.disk, cache.store, 0)
                && SameHome(area, Recover(area, cache.disk), old(cache.store))
    {
      hide Linked, Coherent, Recover, PinsExactly, Unpinned, SomeFree, Idle, AllMean, PutHead, SlotsFilled, Installing;
      ghost var h0, disk0, store0 := cache.history, cache.disk, cache.store;
      ok := WriteLog();
      if !ok {
        assert AllMean(area, h0, |h0|, |h0| + n, disk0) && AllMean(area, h0, |h0| + n, |h0|, store0) by {
          NoneMean(area, h0, |h0| + n, disk0);
          NoneMean(area, h0, |h0| + n, store0);
        }
        return;
      }
      ghost var h, disk, store, s := cache.history, cache.disk, cache.store, cache.buf[..];
      CommitPoint(area, Lh(), s, disk0, store0, disk, store);
      ok := WriteHead();
      AllMeanSwitch(area, h, |h0|, disk0, store0, cache.disk);
      StillPins(s, cache.buf[..], Lh(), area.start);
      StillFree(s, cache.buf[..], area.start);
    }

    /** commit: every crash image recovers to the old home blocks up to the header write and to
        the logged contents from it on.  It runs to its end exactly when some buffer is left
        unpinned to read log blocks into; else bget panics before anything is written. */
    method Commit() returns (ok: bool)
      requires Shape() && Idle(cache.buf[..]) && Logged()
      modifies this`n, cache, cache.buf
      ensures Shape() && old(cache.history) <= cache.history
      ensures AllMean(area, cache.history, |old(cache.history)|, |old(cache.history)| + old(n), old(cache.disk))
      ensures AllMean(area, cache.history, |old(cache.history)| + old(n), |cache.history|, old(cache.store))
      ensures ok <==> old(n) < NBUF
      ensures ok ==>
                && n == 0 && Idle(cache.buf[..]) && Logged() && cache.store == cache.disk
                && SameHome(area, cache.disk, old(cache.store))
                && |cache.history| == |old(cache.history)| + if old(n) > 0 then 2 * old(n) + 2 else 0
    {
      hide Linked, Coherent, Recover, Unpinned, SomeFree, TwoFree, Idle, PutHead, Installing, SlotsFilled, AllMean, AllRecoverTo, SameHome, Pinned, Sound;
      ghost var h0, disk0, store0 := cache.history, cache.disk, cache.store;
      FreeUnlessFull(cache.buf[..], disk0, store0, Lh());
      if n == 0 {
        NothingPinned(cache.buf[..], disk0, store0);
        NoneMean(area, h0, |h0|, disk0);
        NoneMean(area, h0, |h0|, store0);
        SameHomeReflexive(area, disk0);
        return true;
      }
      ghost var k := |h0| + n;
      ok := WriteLogAndHead();
      if !ok { return; }
      ghost var h1, disk1 := cache.history, cache.disk;
      InstallingMeans(area, Lh(), disk1, cache.store, disk1, cache.store, 0);
      ok := InstallAndClear();
      MeanThenRecover(area, h1, cache.history, |h0|, k, disk0, store0, Recover(area, disk1));
    }

    /** The loads read_head makes from the held header block. */
    method DecodeHead(data: Block)
      requires block.Length == LOGSIZE && Word(data, 0) <= LOGSIZE
      modifies this`n, block
      ensures n <= LOGSIZE && Lh() == Head(data)
    {
      n := Word(data, 0);
      var i := 0;
      while i < n
        invariant 0 <= i <= n == Word(data, 0)
        invariant forall j :: 0 <= j < i ==> block[j] == Word(data, j + 1)
      {
        block[i] := Word(data, i + 1);
        i := i + 1;
      }
    }

    /** Read the on-disk list into memory. */
    method ReadHead() returns (ok: bool)
      requires Shape() && Idle(cache.buf[..]) && Sound(area, cache.disk) && cache.store == cache.disk
      requires PinsExactly(cache.buf[..], []) && TwoFree(cache.buf[..])
      modifies this`n, block, cache, cache.buf
      ensures cache.disk == old(cache.disk) && cache.store == old(cache.store) && cache.history == old(cache.history)
      ensures ok && Shape() && Idle(cache.buf[..]) && Lh() == Head(cache.disk[area.start])
      ensures PinsExactly(cache.buf[..], []) && TwoFree(cache.buf[..])
    {
      hide Linked, Sound, PinsExactly, TwoFree, Head, Word, SomeFree, Coherent;
      ghost var s0 := cache.buf[..];
      AllClean(s0);
      var r := cache.Bread(ROOTDEV, area.start);
      SoundHead(area, cache.disk);
      DecodeHead(cache.buf[r.b].data);
      var ok' := cache.Brelse(r.b);
      StillFree(s0, cache.buf[..], area.start);
      StillPins(s0, cache.buf[..], [], area.start);
      ok := true;
    }

    /** Boot-time recovery.  It ends in Recover of the image it found, and every image it passes
        through recovers to the same disk, so it may be cut short and repeated. */
    method RecoverFromLog() returns (ok: bool)
      requires Shape() && Idle(cache.buf[..]) && cache.store == cache.disk && Sound(area, cache.disk)
      requires PinsExactly(cache.buf[..], []) && TwoFree(cache.buf[..])
      modifies this`n, block, cache, cache.buf
      ensures ok && Shape() && Idle(cache.buf[..]) && Logged() && n == 0
      ensures cache.disk == Recover(area, old(cache.disk)) && cache.store == cache.disk
      ensures old(cache.history) <= cache.history
      ensures AllRecoverTo(area, cache.history, |old(cache.history)|, Recover(area, old(cache.disk)))
    {
      ok := ReadHead();
      assert Installing(area, Lh(), cache.disk, cache.store, cache.disk, cache.store, 0);
      ok := InstallAndClear();
    }

    /** begin_op: admitted only while no commit runs and the log has room for one more
        operation's budget; otherwise the caller sleeps. */
    method BeginOp() returns (admitted: bool)
      modifies this`outstanding
      ensures admitted <==> !committing && n + (old(outstanding) + 1) * MAXOPBLOCKS <= LOGSIZE
      ensures outstanding == old(outstanding) + if admitted then 1 else 0
    {
      if committing {
        return false;
      } else if n + (outstanding + 1) * MAXOPBLOCKS > LOGSIZE {
        return false;
      } else {
        outstanding := outstanding + 1;
        return true;
      }
    }

    /** log_write's search of the list: the block's entry, or the first unused one. */
    method FindEntry(bn: nat) returns (i: nat)
      requires block.Length == LOGSIZE && n <= LOGSIZE
      ensures i <= n && (i < n <==> bn in Lh()) && (i < n ==> block[i] == bn)
    {
      i := 0;
      while i < n
        invariant 0 <= i <= n && bn !in Lh()[..i]
      {
        if block[i] == bn {
          break;
        }
        i := i + 1;
      }
    }

    /** log_write: record a held buffer's block, absorbing repeats, and pin the buffer. */
    method LogWrite(b: nat) returns (ok: bool)
      requires Shape() && Logged() && b < NBUF && cache.buf[b].busy && cache.buf[b].valid
      requires !area.Contains(cache.buf[b].blockno) && cache.buf[b].blockno < WORD
      modifies this`n, block, cache`store, cache.buf
      ensures Shape() && Logged()
      ensures ok <==> old(n) < LOGSIZE && old(n) < area.size - 1 && outstanding >= 1
      ensures !ok ==> Lh() == old(Lh()) && cache.buf[..] == old(cache.buf[..]) && cache.store == old(cache.store)
      ensures ok ==>
                && Lh() == (var bn := cache.buf[b].blockno; if bn in old(Lh()) then old(Lh()) else old(Lh()) + [bn])
                && cache.buf[b] == old(cache.buf[b]).(dirty := true)
                && (forall j :: 0 <= j < NBUF && j != b ==> cache.buf[j] == old(cache.buf[j]))
                && cache.store == old(cache.store)[cache.buf[b].blockno := cache.buf[b].data]
    {
      hide Linked, Coherent, Word;
      if n >= LOGSIZE || n >= area.size - 1 {
        return false;
      }
      if outstanding < 1 {
        return false;
      }
      ghost var lh, s := Lh(), cache.buf[..];
      var bn := cache.buf[b].blockno;
      InRange(s, cache.disk, cache.store, b);
      var i := FindEntry(bn);
      block[i] := bn;
      if i == n {
        n := n + 1;
      }
      assert Lh() == if bn in lh then lh else lh + [bn];
      cache.Pin(b);
      PinOne(s, cache.buf[..], lh, b);
      ok := true;
    }

    /** end_op: the last operation out commits the group; afterwards the disk holds every logged block. */
    method EndOp() returns (r: EndResult)
      requires Shape() && Logged() && outstanding >= 1
      requires outstanding == 1 ==> Idle(cache.buf[..])
      modifies this`outstanding, this`committing, this`n, cache, cache.buf
      ensures Shape() && outstanding == old(outstanding) - 1
      ensures r.CommittingPanic? <==> old(committing)
      ensures r.StillOpen? <==> !old(committing) && old(outstanding) > 1
      ensures r.NoBuffers? <==> !old(committing) && old(outstanding) == 1 && old(n) >= NBUF
      ensures r.StillOpen? ==> !committing && Logged() && Lh() == old(Lh()) && cache.buf[..] == old(cache.buf[..])
      ensures r.StillOpen? || r.CommittingPanic? ==> cache.disk == old(cache.disk) && cache.store == old(cache.store) && cache.history == old(cache.history)
      ensures r.Committed? ==>
                && !committing && Logged() && n == 0
                && cache.store == cache.disk && SameHome(area, cache.disk, old(cache.store))
                && AllMean(area, cache.history, |old(cache.history)|, |old(cache.history)| + old(n), old(cache.disk))
                && AllMean(area, cache.history, |old(cache.history)| + old(n), |cache.history|, old(cache.store))
    {
      hide Linked, Coherent, Recover, PinsExactly, Idle, Loggable, AllMean, SameHome;
      outstanding := outstanding - 1;
      if committing {
        return CommittingPanic;
      }
      if outstanding > 0 {
        return StillOpen;
      }
      committing := true;
      var ok := Commit();
      if !ok {
        return NoBuffers;
      }
      committing := false;
      return Committed;
    }
  }
}
