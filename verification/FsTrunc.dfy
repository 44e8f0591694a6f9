/**
Giving an inode's blocks back: the free map after any number of bfree calls, and
the invariant once every reference of the inode is gone.
*/
module FsTrunc {
  import opened Blocks
  import opened FsLayout
  import opened FsState
  import opened FsContent

  /** itrunc's order: direct blocks, indirect entries, the indirect block last. */
  function Turn(t: nat): (j: nat)
    requires t < NREF
    ensures j < NREF
  {
    if t < NDIRECT then t else if t + 1 < NREF then t + 1 else NDIRECT
  }

  /** b is freed within the first k turns. */
  ghost predicate Given(d: Disk, n: Node, k: nat, b: nat) {
    exists t :: 0 <= t < k && t < NREF && Ref(d, n, Turn(t)) == b && b != 0
  }

  /** The store after the first k turns: only the free map differs, by exactly the given blocks. */
  ghost predicate Freeing(sb: Super, d0: Disk, n: Node, k: nat, d: Disk) {
    && sb.Fits(d0) && sb.Fits(d) && |d| == |d0|
    && (forall b :: 0 <= b < |d| && !(sb.bmapstart <= b <= sb.bmapstart + sb.size / BPB) ==> d[b] == d0[b])
    && (forall x :: 0 <= x < sb.size ==> (Used(sb, d, x) <==> Used(sb, d0, x) && !Given(d0, n, k, x)))
  }

  lemma UsedAfterFree(sb: Super, d: Disk, b: nat, x: nat)
    requires sb.Fits(d) && b < sb.size && x < sb.size
    ensures Used(sb, d[MapBlock(sb, b) := FreeBit(d[MapBlock(sb, b)], b % BPB)], x) <==> x != b && Used(sb, d, x)
  {
    hide Bit, FreeBit;
    BitAfterFree(d[MapBlock(sb, b)], b % BPB, x % BPB);
    SameBit(x, b);
  }

  /** A turn whose reference is absent. */
  lemma TurnAbsent(sb: Super, d0: Disk, n: Node, k: nat, d: Disk)
    requires Freeing(sb, d0, n, k, d) && k < NREF && Ref(d0, n, Turn(k)) == 0
    ensures Freeing(sb, d0, n, k + 1, d)
  {
    hide Ref, Used, Turn;
    forall x | 0 <= x < sb.size ensures Given(d0, n, k + 1, x) <==> Given(d0, n, k, x) {
      if Given(d0, n, k, x) {
        var t :| 0 <= t < k && t < NREF && Ref(d0, n, Turn(t)) == x && x != 0;
        assert Ref(d0, n, Turn(t)) == x;
      }
    }
  }

  /** A turn whose reference is present: its block is still marked, so bfree does not panic. */
  lemma TurnFrees(sb: Super, d0: Disk, nodes: seq<Node>, i: nat, k: nat, d: Disk)
    requires Sound(sb, d0, nodes) && i < |nodes| && Freeing(sb, d0, nodes[i], k, d) && k < NREF && Ref(d0, nodes[i], Turn(k)) != 0
    ensures Ref(d0, nodes[i], Turn(k)) < sb.size && Used(sb, d, Ref(d0, nodes[i], Turn(k)))
    ensures var b := Ref(d0, nodes[i], Turn(k));
            Freeing(sb, d0, nodes[i], k + 1, d[MapBlock(sb, b) := FreeBit(d[MapBlock(sb, b)], b % BPB)])
  {
    hide Ref, Used, Turn, Sound, FreeBit;
    var n, b := nodes[i], Ref(d0, nodes[i], Turn(k));
    RefMarked(sb, d0, nodes, i, Turn(k));
    StillMarked(sb, d0, nodes, i, k);
    var d' := d[MapBlock(sb, b) := FreeBit(d[MapBlock(sb, b)], b % BPB)];
    forall x | 0 <= x < sb.size ensures Used(sb, d', x) <==> Used(sb, d0, x) && !Given(d0, n, k + 1, x) {
      UsedAfterFree(sb, d, b, x);
      if Given(d0, n, k, x) {
        var t :| 0 <= t < k && t < NREF && Ref(d0, n, Turn(t)) == x && x != 0;
        assert Ref(d0, n, Turn(t)) == x;
      }
      if x == b {
        assert Ref(d0, n, Turn(k)) == x;
      }
    }
  }

  lemma RefMarked(sb: Super, d: Disk, nodes: seq<Node>, i: nat, j: nat)
    requires Sound(sb, d, nodes) && i < |nodes| && j < NREF && Ref(d, nodes[i], j) != 0
    ensures sb.Fits(d) && sb.DataStart() <= Ref(d, nodes[i], j) < sb.size && Used(sb, d, Ref(d, nodes[i], j))
  {
    hide Ref, Used;
    assert Owned(d, nodes, Ref(d, nodes[i], j));
  }

  lemma StillMarked(sb: Super, d0: Disk, nodes: seq<Node>, i: nat, k: nat)
    requires Sound(sb, d0, nodes) && i < |nodes| && k < NREF && Ref(d0, nodes[i], Turn(k)) != 0
    ensures !Given(d0, nodes[i], k, Ref(d0, nodes[i], Turn(k)))
  {
    hide Ref, MapExact;
    forall t | 0 <= t < k ensures Ref(d0, nodes[i], Turn(t)) != Ref(d0, nodes[i], Turn(k)) {
      assert Turn(t) != Turn(k);
    }
  }

  /** The inode itrunc leaves. */
  function Emptied(n: Node): (r: Node) {
    Node(n.typ, n.major, n.minor, n.nlink, 0, seq(NDIRECT + 1, _ => 0))
  }

  lemma {:induction false} TurnOf(j: nat) returns (t: nat)
    requires j < NREF
    ensures t < NREF && Turn(t) == j
  {
    t := if j < NDIRECT then j else if j == NDIRECT then NREF - 1 else j - 1;
  }

  lemma GivenAll(d: Disk, n: Node, b: nat)
    ensures Given(d, n, NREF, b) <==> exists j :: 0 <= j < NREF && Ref(d, n, j) == b && b != 0
  {
    hide Ref;
    if j :| 0 <= j < NREF && Ref(d, n, j) == b && b != 0 {
      var t := TurnOf(j);
      assert Ref(d, n, Turn(t)) == b;
    }
  }

  lemma EmptiedOk(n: Node)
    requires n.Ok()
    ensures Emptied(n).Ok()
  {
  }

  lemma EmptiedRef(d: Disk, n: Node, q: nat)
    requires q < NREF
    ensures Ref(d, Emptied(n), q) == 0
  {
  }

  lemma EmptiedRefs(sb: Super, d0: Disk, nodes: seq<Node>, i: nat, d: Disk, nodes': seq<Node>)
    requires Sound(sb, d0, nodes) && i < |nodes| && Freeing(sb, d0, nodes[i], NREF, d) && nodes' == nodes[i := Emptied(nodes[i])]
    ensures forall p, q :: 0 <= p < |nodes| && 0 <= q < NREF ==> Ref(d, nodes'[p], q) == if p == i then 0 else Ref(d0, nodes[p], q)
  {
    hide Used, RefsApart, MapExact, Given;
    forall p, q | 0 <= p < |nodes| && 0 <= q < NREF ensures Ref(d, nodes'[p], q) == if p == i then 0 else Ref(d0, nodes[p], q) {
      if p == i {
        EmptiedRef(d, nodes[i], q);
      } else {
        DirectRef(d0, nodes[p], NDIRECT);
      }
    }
  }

  /** With every block given back and every reference dropped, the invariant holds again. */
  lemma TruncKeepsSound(sb: Super, d0: Disk, nodes: seq<Node>, i: nat, d: Disk)
    requires Sound(sb, d0, nodes) && i < |nodes| && Freeing(sb, d0, nodes[i], NREF, d)
    ensures Sound(sb, d, nodes[i := Emptied(nodes[i])])
  {
    hide Ref, Used, Given, Emptied;
    var nodes' := nodes[i := Emptied(nodes[i])];
    EmptiedRefs(sb, d0, nodes, i, d, nodes');
    EmptiedOk(nodes[i]);
    forall x | 0 <= x < sb.size ensures Used(sb, d, x) <==> x < sb.DataStart() || Owned(d, nodes', x) {
      GivenAll(d0, nodes[i], x);
      if Owned(d, nodes', x) && x != 0 {
        var p, q :| 0 <= p < |nodes'| && 0 <= q < NREF && Ref(d, nodes'[p], q) == x;
        assert p != i && Ref(d0, nodes[p], q) == x;
      }
      if Owned(d0, nodes, x) && x != 0 {
        var p, q :| 0 <= p < |nodes| && 0 <= q < NREF && Ref(d0, nodes[p], q) == x;
        if p != i {
          assert Ref(d, nodes'[p], q) == x;
        }
      }
    }
    forall p, q, p', q' | 0 <= p < |nodes'| && 0 <= p' < |nodes'| && 0 <= q < NREF && 0 <= q' < NREF
        && Ref(d, nodes'[p], q) != 0 && Ref(d, nodes'[p], q) == Ref(d, nodes'[p'], q')
      ensures p == p' && q == q'
    {
      assert p != i && p' != i;
    }
  }

  lemma FreeingStarts(sb: Super, d: Disk, n: Node)
    requires sb.Fits(d)
    ensures Freeing(sb, d, n, 0, d)
  {
  }

  /** With no indirect block, the turns from the first entry on have nothing to free. */
  lemma {:induction false} RestAbsent(sb: Super, d0: Disk, n: Node, k: nat, d: Disk)
    requires Freeing(sb, d0, n, k, d) && NDIRECT <= k <= NREF && |n.addrs| == NDIRECT + 1 && n.addrs[NDIRECT] == 0
    ensures Freeing(sb, d0, n, NREF, d)
    decreases NREF - k
  {
    if k < NREF {
      assert Ref(d0, n, Turn(k)) == 0;
      TurnAbsent(sb, d0, n, k, d);
      RestAbsent(sb, d0, n, k + 1, d);
    }
  }

  /** What itrunc promises: the file is empty and unreferenced, its blocks and no others are free
      again, no other inode changed in any byte, and the invariant holds. */
  ghost predicate Truncated(sb: Super, d0: Disk, nodes0: seq<Node>, d: Disk, nodes: seq<Node>, i: nat) {
    && sb.Fits(d0) && i < |nodes0| && nodes == nodes0[i := Emptied(nodes0[i])]
    && Sound(sb, d, nodes) && Dense(d, nodes) && SyncedBut(sb, d, nodes, -1)
    && (forall x :: 0 <= x < sb.size ==> (Used(sb, d, x) <==> Used(sb, d0, x) && !Given(d0, nodes0[i], NREF, x)))
    && (forall p :: 0 <= p < |nodes0| && p != i ==> Content(d, nodes[p]) == Content(d0, nodes0[p]))
  }

  lemma TruncOthers(sb: Super, d0: Disk, nodes0: seq<Node>, d: Disk, nodes: seq<Node>, i: nat)
    requires Sound(sb, d0, nodes0) && i < |nodes0| && Freeing(sb, d0, nodes0[i], NREF, d) && nodes == nodes0[i := Emptied(nodes0[i])]
    ensures OthersKept(d0, nodes0, d, nodes, i) && Mapped(d, nodes[i], 0)
  {
    hide Ref, Used, Given, Emptied, RefsApart, MapExact;
    EmptiedRefs(sb, d0, nodes0, i, d, nodes);
    forall p, q | 0 <= p < |nodes| && p != i && 0 <= q < NREF && q != NDIRECT && 0 < Ref(d0, nodes0[p], q) < |d0|
      ensures d[Ref(d0, nodes0[p], q)] == d0[Ref(d0, nodes0[p], q)]
    {
      assert sb.DataStart() <= Ref(d0, nodes0[p], q);
    }
  }

  lemma TruncFinishes(sb: Super, d0: Disk, nodes0: seq<Node>, d: Disk, nodes: seq<Node>, i: nat, d': Disk)
    requires Sound(sb, d0, nodes0) && Dense(d0, nodes0) && SyncedBut(sb, d0, nodes0, -1) && i < |nodes0|
    requires Freeing(sb, d0, nodes0[i], NREF, d) && nodes == nodes0[i := Emptied(nodes0[i])]
    requires nodes[i].Ok() && InodeBlock(sb, i) < |d| && d' == WithNode(sb, d, i, nodes[i])
    ensures Truncated(sb, d0, nodes0, d', nodes, i)
  {
    hide Ref, Given, OthersKept, RefsApart, RefsInside, MapExact, SyncedBut, Dense, Mapped, Bytes, WithNode, Dinode, Bit;
    TruncKeepsSound(sb, d0, nodes0, i, d);
    TruncOthers(sb, d0, nodes0, d, nodes, i);
    NodeWriteKeeps(sb, d, nodes, i, d');
    SyncedWeaker(sb, d0, nodes0, i);
    SyncedFrame(sb, d0, nodes0, d, nodes, i);
    NodeWriteSyncs(sb, d, nodes, i, d');
    InodeWriteFrame(sb, d0, nodes0, d, nodes, i, nodes, d', 0);
    OthersDense(d0, nodes0, d', nodes, i);
    forall x | 0 <= x < sb.size ensures Used(sb, d', x) == Used(sb, d, x) {
      UsedSame(sb, d, d', x);
    }
  }

  lemma UsedSame(sb: Super, d: Disk, d': Disk, x: nat)
    requires sb.Fits(d) && x < sb.size && |d'| == |d| && forall b :: sb.bmapstart <= b < |d| ==> d'[b] == d[b]
    ensures sb.bmapstart + x / BPB < |d| && Used(sb, d', x) == Used(sb, d, x)
  {
  }
}
