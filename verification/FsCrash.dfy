/**
The file system on top of the log: what the file layer promises of the block
store, carried through the crash images the log layer produces.
*/
module FsCrash {
  import opened Blocks
  import opened FsLayout
  import opened FsState
  import opened FsContent
  import opened FsTrunc
  import opened Journal
  import Wal
  import Log
  import GroupCommit

  /** The disk holds these inodes and these files, allocated soundly and without holes. */
  ghost predicate Holds(sb: Super, d: Disk, nodes: seq<Node>, files: seq<seq<byte>>) {
    && Sound(sb, d, nodes) && Dense(d, nodes) && SyncedBut(sb, d, nodes, -1)
    && |files| == |nodes| && forall p :: 0 <= p < |nodes| ==> Content(d, nodes[p]) == files[p]
  }

  /** A disk holds at most one such set of files. */
  lemma OneMeaning(sb: Super, d: Disk, nodes: seq<Node>, files: seq<seq<byte>>, nodes': seq<Node>, files': seq<seq<byte>>)
    requires Holds(sb, d, nodes, files) && Holds(sb, d, nodes', files')
    ensures nodes == nodes' && files == files'
  {
    hide Ref, Content, RefsApart, RefsInside, MapExact, Dense, Dinode;
    forall p | 0 <= p < |nodes| ensures nodes[p] == nodes'[p] {
      InodeBlockBelow(sb, d, p);
      assert Dinode(sb, d, p) == nodes[p] && Dinode(sb, d, p) == nodes'[p];
    }
  }

  lemma SameFiles(sb: Super, d: Disk, e: Disk, n: Node)
    requires sb.Fits(d) && |e| == |d| && n.Ok() && n.size <= MAXFILE * BSIZE && forall b :: sb.inodestart <= b < |d| ==> e[b] == d[b]
    requires forall j :: 0 <= j < NREF ==> Ref(d, n, j) == 0 || sb.DataStart() <= Ref(d, n, j)
    requires forall bn :: 0 <= bn < MAXFILE && bn * BSIZE < n.size ==> Ref(d, n, Slot(bn)) != 0
    ensures (forall j :: 0 <= j < NREF ==> Ref(e, n, j) == Ref(d, n, j)) && Content(e, n) == Content(d, n)
  {
    hide Word;
    DirectRef(d, n, NDIRECT);
    forall j | 0 <= j < NREF ensures Ref(e, n, j) == Ref(d, n, j) {
    }
    hide Ref;
    BytesFrame(d, n, e, n, n.size);
  }

  /** Files live outside the log area, so disks that agree there hold the same files. */
  lemma HoldsFrame(sb: Super, a: Wal.Area, d: Disk, e: Disk, nodes: seq<Node>, files: seq<seq<byte>>)
    requires Holds(sb, d, nodes, files) && Wal.SameHome(a, e, d) && a.start + a.size <= sb.inodestart
    ensures Holds(sb, e, nodes, files)
  {
    hide Ref, Content, RefsApart, MapExact, Dinode;
    assert forall b :: sb.inodestart <= b < |d| ==> e[b] == d[b];
    forall p | 0 <= p < |nodes|
      ensures (forall j :: 0 <= j < NREF ==> Ref(e, nodes[p], j) == Ref(d, nodes[p], j)) && Content(e, nodes[p]) == Content(d, nodes[p])
    {
      SameFiles(sb, d, e, nodes[p]);
    }
    SameRefsSound(sb, d, nodes, e);
    SyncedFrame(sb, d, nodes, e, nodes, -1);
  }

  /** A commit from the files of d to the files of e: whenever the machine stops, recovery yields a file
      system with all the old files or all the new ones, old up to the header write and new from it on. */
  lemma CommitIsAtomic(sb: Super, a: Wal.Area, d: Disk, nodes: seq<Node>, files: seq<seq<byte>>, e: Disk, nodes': seq<Node>, files': seq<seq<byte>>,
                       h: seq<Disk>, lo: nat, mid: nat, j: nat)
    requires Holds(sb, d, nodes, files) && Holds(sb, e, nodes', files') && a.start + a.size <= sb.inodestart
    requires Log.AllMean(a, h, lo, mid, d) && Log.AllMean(a, h, mid, |h|, e) && lo <= j < |h|
    ensures Wal.Sound(a, h[j]) && if j < mid then Holds(sb, Wal.Recover(a, h[j]), nodes, files) else Holds(sb, Wal.Recover(a, h[j]), nodes', files')
  {
    hide Holds, Wal.Recover;
    if j < mid {
      HoldsFrame(sb, a, d, Wal.Recover(a, h[j]), nodes, files);
    } else {
      HoldsFrame(sb, a, e, Wal.Recover(a, h[j]), nodes', files');
    }
  }

  /** A write that is committed alone is atomic: after any crash the file has its old bytes or all of the new
      ones, and every other file is intact. */
  lemma WriteIsAtomic(sb: Super, a: Wal.Area, d: Disk, nodes: seq<Node>, files: seq<seq<byte>>, e: Disk, nodes': seq<Node>, i: nat, off: nat, src: seq<byte>,
                      h: seq<Disk>, lo: nat, mid: nat, j: nat)
    requires Holds(sb, d, nodes, files) && Wrote(sb, d, nodes, e, nodes', i, off, src) && a.start + a.size <= sb.inodestart
    requires Log.AllMean(a, h, lo, mid, d) && Log.AllMean(a, h, mid, |h|, e) && lo <= j < |h|
    ensures off <= |files[i]|
    ensures Wal.Sound(a, h[j]) && if j < mid then Holds(sb, Wal.Recover(a, h[j]), nodes, files)
                                  else Holds(sb, Wal.Recover(a, h[j]), nodes', files[i := Splice(files[i], off, src)])
  {
    hide Sound, Dense, SyncedBut, Content;
    var files' := files[i := Splice(files[i], off, src)];
    assert Holds(sb, e, nodes', files');
    hide Holds;
    CommitIsAtomic(sb, a, d, nodes, files, e, nodes', files', h, lo, mid, j);
  }

  /** So is a truncation. */
  lemma TruncIsAtomic(sb: Super, a: Wal.Area, d: Disk, nodes: seq<Node>, files: seq<seq<byte>>, e: Disk, nodes': seq<Node>, i: nat,
                      h: seq<Disk>, lo: nat, mid: nat, j: nat)
    requires Holds(sb, d, nodes, files) && Truncated(sb, d, nodes, e, nodes', i) && a.start + a.size <= sb.inodestart
    requires Log.AllMean(a, h, lo, mid, d) && Log.AllMean(a, h, mid, |h|, e) && lo <= j < |h|
    ensures Wal.Sound(a, h[j]) && if j < mid then Holds(sb, Wal.Recover(a, h[j]), nodes, files) else Holds(sb, Wal.Recover(a, h[j]), nodes', files[i := []])
  {
    hide Sound, Dense, SyncedBut;
    assert Content(e, nodes'[i]) == [];
    hide Content;
    assert Holds(sb, e, nodes', files[i := []]);
    hide Holds;
    CommitIsAtomic(sb, a, d, nodes, files, e, nodes', files[i := []], h, lo, mid, j);
  }

  // ---- whole runs ----

  /** An operation on a file: a writei, or an itrunc. */
  datatype FileOp = Put(i: nat, off: nat, src: seq<byte>) | Cut(i: nat)

  /** What an operation means for the files. */
  function Apply(files: seq<seq<byte>>, op: FileOp): (r: seq<seq<byte>>) {
    if op.i >= |files| then files
    else
      match op
      case Put(i, off, src) => if off <= |files[i]| then files[i := Splice(files[i], off, src)] else files
      case Cut(i) => files[i := []]
  }

  function ApplyAll(files: seq<seq<byte>>, ops: seq<FileOp>): (r: seq<seq<byte>>) {
    if ops == [] then files else Apply(ApplyAll(files, ops[..|ops| - 1]), ops[|ops| - 1])
  }

  lemma {:induction false} ApplyAppends(files: seq<seq<byte>>, ops: seq<FileOp>, more: seq<FileOp>)
    ensures ApplyAll(files, ops + more) == ApplyAll(ApplyAll(files, ops), more)
  {
    if more == [] {
      assert ops + more == ops;
    } else {
      assert (ops + more)[..|ops + more| - 1] == ops + more[..|more| - 1];
      ApplyAppends(files, ops, more[..|more| - 1]);
    }
  }

  /** What Writei and Itrunc establish between the store before and the store after. */
  ghost predicate StepOf(sb: Super, op: FileOp, d: Disk, nodes: seq<Node>, e: Disk, nodes': seq<Node>) {
    match op
    case Put(i, off, src) => Wrote(sb, d, nodes, e, nodes', i, off, src)
    case Cut(i) => Truncated(sb, d, nodes, e, nodes', i)
  }

  /** The operations, one after the other. */
  ghost predicate Chain(sb: Super, ops: seq<FileOp>, d: Disk, nodes: seq<Node>, e: Disk, nodes': seq<Node>) {
    if ops == [] then e == d && nodes' == nodes
    else
      var front, last := ops[..|ops| - 1], ops[|ops| - 1];
      exists d1, nodes1 :: Chain(sb, front, d, nodes, d1, nodes1) && StepOf(sb, last, d1, nodes1, e, nodes')
  }

  lemma StepHolds(sb: Super, op: FileOp, d: Disk, nodes: seq<Node>, files: seq<seq<byte>>, e: Disk, nodes': seq<Node>)
    requires Holds(sb, d, nodes, files) && StepOf(sb, op, d, nodes, e, nodes')
    ensures Holds(sb, e, nodes', Apply(files, op))
  {
    hide Sound, Dense, SyncedBut, Used, Given;
    if op.Cut? {
      assert Content(e, nodes'[op.i]) == [];
    } else {
      assert |Content(d, nodes[op.i])| == nodes[op.i].size;
    }
    hide Content;
  }

  lemma {:induction false} ChainHolds(sb: Super, ops: seq<FileOp>, d: Disk, nodes: seq<Node>, files: seq<seq<byte>>, e: Disk, nodes': seq<Node>)
    requires Holds(sb, d, nodes, files) && Chain(sb, ops, d, nodes, e, nodes')
    ensures Holds(sb, e, nodes', ApplyAll(files, ops))
    decreases |ops|
  {
    hide Holds, StepOf, Apply;
    if ops != [] {
      var last := |ops| - 1;
      var d1, nodes1 :| Chain(sb, ops[..last], d, nodes, d1, nodes1) && StepOf(sb, ops[last], d1, nodes1, e, nodes');
      ChainHolds(sb, ops[..last], d, nodes, files, d1, nodes1);
      StepHolds(sb, ops[last], d1, nodes1, ApplyAll(files, ops[..last]), e, nodes');
    }
  }

  /** The logged writes are those of the operations, done on a store that holds the files of d. */
  ghost predicate Carries(sb: Super, a: Wal.Area, ws: seq<Write>, ops: seq<FileOp>, d: Disk, nodes: seq<Node>, nodes': seq<Node>) {
    exists e :: Wal.SameHome(a, e, d) && Chain(sb, ops, e, nodes, Replay(e, ws), nodes')
  }

  /** One more operation. */
  lemma ChainOne(sb: Super, ops: seq<FileOp>, op: FileOp, d: Disk, nodes: seq<Node>, d1: Disk, nodes1: seq<Node>, e: Disk, nodes': seq<Node>)
    requires Chain(sb, ops, d, nodes, d1, nodes1) && StepOf(sb, op, d1, nodes1, e, nodes')
    ensures Chain(sb, ops + [op], d, nodes, e, nodes')
  {
    hide StepOf;
    assert (ops + [op])[..|ops|] == ops;
  }

  /** The journal of operations done one after the other carries them. */
  lemma JournalCarries(sb: Super, a: Wal.Area, ops: seq<FileOp>, ws0: seq<Write>, d: Disk, nodes: seq<Node>, ws: seq<Write>, e: Disk, nodes': seq<Node>)
    requires Extends(ws0, d, ws, e) && Chain(sb, ops, d, nodes, e, nodes')
    ensures Carries(sb, a, Since(ws0, ws), ops, d, nodes, nodes')
  {
    hide Chain, Replay;
    assert Wal.SameHome(a, d, d);
  }

  lemma {:induction false} ReplayHome(a: Wal.Area, d: Disk, e: Disk, ws: seq<Write>)
    requires Wal.SameHome(a, e, d)
    ensures Wal.SameHome(a, Replay(e, ws), Replay(d, ws))
  {
    if ws != [] {
      ReplayHome(a, d, e, ws[..|ws| - 1]);
    }
  }

  lemma CarriesHolds(sb: Super, a: Wal.Area, ws: seq<Write>, ops: seq<FileOp>, d: Disk, nodes: seq<Node>, files: seq<seq<byte>>, nodes': seq<Node>)
    requires Holds(sb, d, nodes, files) && Carries(sb, a, ws, ops, d, nodes, nodes') && a.start + a.size <= sb.inodestart
    ensures Holds(sb, Replay(d, ws), nodes', ApplyAll(files, ops))
  {
    hide Holds, Chain, Replay, Wal.SameHome;
    var e :| Wal.SameHome(a, e, d) && Chain(sb, ops, e, nodes, Replay(e, ws), nodes');
    HoldsFrame(sb, a, d, e, nodes, files);
    ChainHolds(sb, ops, e, nodes, files, Replay(e, ws), nodes');
    ReplayHome(a, d, e, ws);
    SameHomeBack(a, Replay(e, ws), Replay(d, ws));
    HoldsFrame(sb, a, Replay(e, ws), Replay(d, ws), nodes', ApplyAll(files, ops));
  }

  lemma SameHomeBack(a: Wal.Area, d: Disk, e: Disk)
    requires Wal.SameHome(a, d, e)
    ensures Wal.SameHome(a, e, d)
  {
  }

  function Joined(plan: seq<seq<FileOp>>): (r: seq<FileOp>) {
    if plan == [] then [] else Joined(plan[..|plan| - 1]) + plan[|plan| - 1]
  }

  /** Each committed group holds the writes of whole file operations: plan lists them group by group. */
  ghost predicate Planned(sb: Super, a: Wal.Area, groups: seq<seq<Write>>, plan: seq<seq<FileOp>>, d: Disk, nodes: seq<Node>, nodes': seq<Node>) {
    if groups == [] || plan == [] then groups == [] && plan == [] && nodes' == nodes
    else
      var front, last := groups[..|groups| - 1], groups[|groups| - 1];
      var ops, before := plan[|plan| - 1], plan[..|plan| - 1];
      var e := Replay(d, GroupCommit.Flatten(front));
      exists nodes1 :: Planned(sb, a, front, before, d, nodes, nodes1) && Carries(sb, a, last, ops, e, nodes1, nodes')
  }

  lemma {:induction false} PlannedHolds(sb: Super, a: Wal.Area, groups: seq<seq<Write>>, plan: seq<seq<FileOp>>, d: Disk, nodes: seq<Node>, files: seq<seq<byte>>, nodes': seq<Node>)
    requires Holds(sb, d, nodes, files) && Planned(sb, a, groups, plan, d, nodes, nodes') && a.start + a.size <= sb.inodestart
    ensures Holds(sb, Replay(d, GroupCommit.Flatten(groups)), nodes', ApplyAll(files, Joined(plan)))
    decreases |groups|
  {
    hide Holds, Carries, Apply;
    if groups != [] && plan != [] {
      var g, o := |groups| - 1, |plan| - 1;
      var nodes1 :| Planned(sb, a, groups[..g], plan[..o], d, nodes, nodes1) && Carries(sb, a, groups[g], plan[o], Replay(d, GroupCommit.Flatten(groups[..g])), nodes1, nodes');
      PlannedHolds(sb, a, groups[..g], plan[..o], d, nodes, files, nodes1);
      CarriesHolds(sb, a, groups[g], plan[o], Replay(d, GroupCommit.Flatten(groups[..g])), nodes1, ApplyAll(files, Joined(plan[..o])), nodes');
      ReplayAppends(d, GroupCommit.Flatten(groups[..g]), groups[g]);
      ApplyAppends(files, Joined(plan[..o]), plan[o]);
    }
  }

  /** For any interleaving of operations, commits, crashes and reboots whose committed groups hold whole file
      operations: recovery yields, file by file, what the committed operations in order make of the first
      files, and nothing of any other operation. */
  lemma RunKeepsFiles(sb: Super, p: GroupCommit.Policy, a: Wal.Area, d0: Disk, s0: GroupCommit.State, steps: seq<GroupCommit.Step>, t: GroupCommit.State,
                      nodes0: seq<Node>, files0: seq<seq<byte>>, plan: seq<seq<FileOp>>, nodes: seq<Node>)
    requires GroupCommit.Init(a, d0, s0) && GroupCommit.Safe(p, a) && GroupCommit.Runs(p, a, s0, steps, t) && a.start + a.size <= sb.inodestart
    requires Holds(sb, d0, nodes0, files0) && Planned(sb, a, t.groups, plan, d0, nodes0, nodes)
    ensures Wal.Sound(a, t.disk) && Holds(sb, Wal.Recover(a, t.disk), nodes, ApplyAll(files0, Joined(plan)))
  {
    hide Holds, Planned, Wal.Recover, Wal.SameHome, Replay, GroupCommit.Init, GroupCommit.Runs, GroupCommit.Safe;
    GroupCommit.CrashSafety(p, a, d0, s0, steps, t);
    PlannedHolds(sb, a, t.groups, plan, d0, nodes0, files0, nodes);
    HoldsFrame(sb, a, Replay(d0, GroupCommit.Flatten(t.groups)), Wal.Recover(a, t.disk), nodes, ApplyAll(files0, Joined(plan)));
  }
}
