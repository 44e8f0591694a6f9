/**
The on-disk redo log of log.c: a header block naming home blocks, followed by
one slot per named block.  Recover is what a reboot makes of a disk image; the
lemmas say what each single block write of a commit does to that meaning.
*/
module Wal {
  import opened Blocks

  const MAXOPBLOCKS: nat := 10
  const LOGSIZE: nat := 3 * MAXOPBLOCKS

  /** The log area: header block at start, slots at start + 1 .. start + size - 1. */
  datatype Area = Area(start: nat, size: nat)
  {
    predicate Contains(b: nat) {
      start <= b < start + size
    }

    predicate Fits(d: Disk) {
      0 < size && start + size <= |d|
    }
  }

  // ---- the header block ----

  /** The block list in a header block. */
  function Head(b: Block): (lh: seq<nat>)
    requires Word(b, 0) <= LOGSIZE
  {
    seq(Word(b, 0), i requires 0 <= i < Word(b, 0) => Word(b, i + 1))
  }

  /** The first k entries of lh stored behind the count word. */
  function PutEntries(b: Block, lh: seq<nat>, k: nat): (r: Block)
    requires k <= |lh| <= LOGSIZE && forall i :: 0 <= i < |lh| ==> lh[i] < WORD
  {
    if k == 0 then b else SetWord(PutEntries(b, lh, k - 1), k, lh[k - 1])
  }

  /** A header block after write_head's stores; bytes behind the list keep their old value. */
  function PutHead(b: Block, lh: seq<nat>): (r: Block)
    requires |lh| <= LOGSIZE && forall i :: 0 <= i < |lh| ==> lh[i] < WORD
  {
    PutEntries(SetWord(b, 0, |lh|), lh, |lh|)
  }

  lemma {:induction false} PutEntriesWords(b: Block, lh: seq<nat>, k: nat, j: nat)
    requires k <= |lh| <= LOGSIZE && forall i :: 0 <= i < |lh| ==> lh[i] < WORD
    requires j < BSIZE / 4
    ensures Word(PutEntries(b, lh, k), j) == if 1 <= j <= k then lh[j - 1] else Word(b, j)
  {
    if k > 0 {
      PutEntriesWords(b, lh, k - 1, j);
      WordAfterSet(PutEntries(b, lh, k - 1), k, lh[k - 1], j);
    }
  }

  /** read_head after write_head gives the in-memory list back. */
  lemma HeadRoundTrip(b: Block, lh: seq<nat>)
    requires |lh| <= LOGSIZE && forall i :: 0 <= i < |lh| ==> lh[i] < WORD
    ensures Word(PutHead(b, lh), 0) == |lh| && Head(PutHead(b, lh)) == lh
  {
    PutEntriesWords(SetWord(b, 0, |lh|), lh, |lh|, 0);
    WordAfterSet(b, 0, |lh|, 0);
    forall i | 0 <= i < |lh| ensures Head(PutHead(b, lh))[i] == lh[i] {
      PutEntriesWords(SetWord(b, 0, |lh|), lh, |lh|, i + 1);
    }
  }

  // ---- what a disk image means ----

  ghost predicate Distinct(s: seq<nat>) {
    forall i, j :: 0 <= i < j < |s| ==> s[i] != s[j]
  }

  /** A block list a log can hold: short enough, distinct home blocks of this disk. */
  ghost predicate Loggable(a: Area, lh: seq<nat>, size: nat) {
    && |lh| <= LOGSIZE && |lh| < a.size
    && Distinct(lh)
    && forall i :: 0 <= i < |lh| ==> lh[i] < size && lh[i] < WORD && !a.Contains(lh[i])
  }

  ghost predicate Sound(a: Area, d: Disk) {
    && a.Fits(d)
    && Word(d[a.start], 0) <= LOGSIZE
    && Loggable(a, Head(d[a.start]), |d|)
  }

  /** The disk after install_trans has copied the first k slots home. */
  ghost function Installed(a: Area, d: Disk, lh: seq<nat>, k: nat): (r: Disk)
    requires a.Fits(d) && Loggable(a, lh, |d|) && k <= |lh|
    ensures |r| == |d|
  {
    if k == 0 then d
    else
      var e := Installed(a, d, lh, k - 1);
      e[lh[k - 1] := e[a.start + k]]
  }

  /** What recover_from_log makes of a disk: install every named slot, then clear the header. */
  ghost function Recover(a: Area, d: Disk): (r: Disk)
    requires Sound(a, d)
    ensures |r| == |d|
  {
    var lh := Head(d[a.start]);
    var e := Installed(a, d, lh, |lh|);
    e[a.start := PutHead(e[a.start], [])]
  }

  /** Two disks agree on every block outside the log. */
  ghost predicate SameHome(a: Area, d: Disk, e: Disk) {
    |d| == |e| && forall b :: 0 <= b < |d| && !a.Contains(b) ==> d[b] == e[b]
  }

  lemma {:induction false} InstalledAt(a: Area, d: Disk, lh: seq<nat>, k: nat)
    requires a.Fits(d) && Loggable(a, lh, |d|) && k <= |lh|
    ensures forall i :: 0 <= i < k ==> Installed(a, d, lh, k)[lh[i]] == d[a.start + 1 + i]
    ensures forall b :: 0 <= b < |d| && b !in lh[..k] ==> Installed(a, d, lh, k)[b] == d[b]
  {
    if k > 0 {
      InstalledAt(a, d, lh, k - 1);
      assert lh[..k] == lh[..k - 1] + [lh[k - 1]];
    }
  }

  lemma RecoverAt(a: Area, d: Disk)
    requires Sound(a, d)
    ensures forall i :: 0 <= i < |Head(d[a.start])| ==> Recover(a, d)[Head(d[a.start])[i]] == d[a.start + 1 + i]
    ensures forall b :: 0 <= b < |d| && b != a.start && b !in Head(d[a.start]) ==> Recover(a, d)[b] == d[b]
    ensures Recover(a, d)[a.start] == PutHead(d[a.start], [])
  {
    var lh := Head(d[a.start]);
    InstalledAt(a, d, lh, |lh|);
    assert lh[..|lh|] == lh;
  }

  /** Recovery is idempotent: a recovered disk is sound, empty of log, and recovers to itself. */
  lemma RecoverIdempotent(a: Area, d: Disk)
    requires Sound(a, d)
    ensures Sound(a, Recover(a, d)) && Head(Recover(a, d)[a.start]) == []
    ensures Recover(a, Recover(a, d)) == Recover(a, d)
  {
    var r := Recover(a, d);
    RecoverAt(a, d);
    HeadRoundTrip(d[a.start], []);
    ClearTwice(d[a.start]);
  }

  lemma ClearTwice(b: Block)
    ensures PutHead(PutHead(b, []), []) == PutHead(b, [])
  {
  }

  /** A disk whose header is empty means exactly its home blocks. */
  lemma EmptyLogMeansHome(a: Area, d: Disk)
    requires a.Fits(d) && Word(d[a.start], 0) == 0
    ensures Sound(a, d) && SameHome(a, Recover(a, d), d)
  {
    assert Head(d[a.start]) == [];
    RecoverAt(a, d);
  }

  /** Filling a slot while the header is empty changes no home block's meaning. */
  lemma SlotWriteInvisible(a: Area, d: Disk, k: nat, v: Block)
    requires a.Fits(d) && Word(d[a.start], 0) == 0 && k + 1 < a.size
    ensures Sound(a, d[a.start + 1 + k := v])
    ensures SameHome(a, Recover(a, d[a.start + 1 + k := v]), d)
  {
    EmptyLogMeansHome(a, d[a.start + 1 + k := v]);
  }

  /** The header write is the commit point: the meaning jumps to the target image. */
  lemma HeaderWriteCommits(a: Area, d: Disk, lh: seq<nat>, target: Disk)
    requires a.Fits(d) && Word(d[a.start], 0) == 0 && Loggable(a, lh, |d|) && |target| == |d|
    requires forall i :: 0 <= i < |lh| ==> d[a.start + 1 + i] == target[lh[i]]
    requires forall b :: 0 <= b < |d| && !a.Contains(b) && b !in lh ==> d[b] == target[b]
    ensures var e := d[a.start := PutHead(d[a.start], lh)];
            Sound(a, e) && Head(e[a.start]) == lh && SameHome(a, Recover(a, e), target)
  {
    HeadRoundTrip(d[a.start], lh);
    var e := d[a.start := PutHead(d[a.start], lh)];
    RecoverAt(a, e);
    forall b | 0 <= b < |d| && !a.Contains(b) ensures Recover(a, e)[b] == target[b] {
      if b in lh {
        var i :| 0 <= i < |lh| && lh[i] == b;
        assert Recover(a, e)[lh[i]] == e[a.start + 1 + i];
      }
    }
  }

  /** Copying one committed slot home leaves the recovered image as it was. */
  lemma InstallKeepsMeaning(a: Area, d: Disk, k: nat)
    requires Sound(a, d) && k < |Head(d[a.start])|
    ensures var e := d[Head(d[a.start])[k] := d[a.start + 1 + k]];
            Sound(a, e) && Recover(a, e) == Recover(a, d)
  {
    var lh := Head(d[a.start]);
    var e := d[lh[k] := d[a.start + 1 + k]];
    RecoverAt(a, d);
    RecoverAt(a, e);
    forall b | 0 <= b < |d| ensures Recover(a, e)[b] == Recover(a, d)[b] {
      if b in lh {
        var i :| 0 <= i < |lh| && lh[i] == b;
        assert Recover(a, e)[lh[i]] == e[a.start + 1 + i];
        assert Recover(a, d)[lh[i]] == d[a.start + 1 + i];
      }
    }
  }

  /** Clearing the header once every slot is home leaves the recovered image as it was. */
  lemma ClearKeepsMeaning(a: Area, d: Disk)
    requires Sound(a, d)
    requires forall i :: 0 <= i < |Head(d[a.start])| ==> d[Head(d[a.start])[i]] == d[a.start + 1 + i]
    ensures var e := d[a.start := PutHead(d[a.start], [])];
            Sound(a, e) && Head(e[a.start]) == [] && Recover(a, e) == Recover(a, d) && Recover(a, e) == e
  {
    var lh := Head(d[a.start]);
    var e := d[a.start := PutHead(d[a.start], [])];
    HeadRoundTrip(d[a.start], []);
    ClearTwice(d[a.start]);
    RecoverAt(a, d);
    RecoverAt(a, e);
    forall b | 0 <= b < |d| ensures Recover(a, e)[b] == Recover(a, d)[b] && Recover(a, e)[b] == e[b] {
      if b in lh {
        var i :| 0 <= i < |lh| && lh[i] == b;
        assert Recover(a, d)[lh[i]] == d[a.start + 1 + i];
      }
    }
  }
}
