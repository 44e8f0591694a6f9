/**
log.c as a protocol: file system operations of any number of processes
interleaved with the single block writes of commits, crashes at any point, and
recoveries that may crash again.  A state also carries the history the theorems
speak of: which writes each committed group holds.
*/
module GroupCommit {
  import opened Blocks
  import opened Journal
  import opened Sets
  import opened Wal

  datatype Phase =
    | Open                  // no commit under way
    | Filling(k: nat)       // write_log has filled k slots
    | Installing(k: nat)    // the header is on disk; install_trans has copied k slots
    | Cleared               // the header is erased; log.committing is still set
    | Down                  // crashed
    | Recovering(k: nat)    // recover_from_log has copied k slots
    | Panicked

  /** What an operation in progress has done: log_write calls entered, and distinct blocks logged. */
  datatype Use = Use(calls: nat, blocks: set<nat>)

  /** What one operation may do: anything, at most n log_write calls, or at most n distinct blocks. */
  datatype Budget = NoBudget | Calls(n: nat) | Blocks(n: nat)

  /** What is taken for granted of the callers: a budget for each operation, and whether they enter
      log_write one at a time. */
  datatype Policy = Policy(budget: Budget, alone: bool)

  datatype State = State(
    phase: Phase,
    outstanding: int,
    committing: bool,
    lh: seq<nat>,
    store: Disk,            // what readers of the cache see
    disk: Disk,             // what survives a crash
    ops: map<nat, Use>,     // the operations in progress
    passed: set<nat>,       // operations inside log_write, past its guards
    nextOp: nat,
    open: seq<Write>,       // writes logged since the last commit point
    groups: seq<seq<Write>>,// committed groups, oldest first
    lost: set<nat>)         // operations whose writes a crash discarded

  datatype Step =
    | BeginOp
    | LogCheck(op: nat)
    | LogAppend(op: nat, bn: nat, data: Block)
    | EndOp(op: nat)
    | FillSlot
    | WriteHeader
    | InstallSlot
    | ClearHeader
    | NothingToCommit
    | CommitDone
    | Crash
    | Reboot
    | RecoverSlot
    | RecoverClear

  function Append(lh: seq<nat>, bn: nat): (r: seq<nat>) {
    if bn in lh then lh else lh + [bn]
  }

  function OpsOf(ws: seq<Write>): (r: set<nat>) {
    set i | 0 <= i < |ws| :: ws[i].op
  }

  /** log_write's guards let a call in while fewer blocks are listed. */
  function Cap(a: Area): (n: int) {
    if LOGSIZE < a.size - 1 then LOGSIZE else a.size - 1
  }

  /** When a step can happen.  begin_op waits for the lock holder's conditions, and an operation
      logs home blocks of the disk, within the policy.  After a panic only a crash follows. */
  ghost predicate Enabled(p: Policy, a: Area, s: State, step: Step) {
    match step
    case BeginOp => s.phase !in {Down, Panicked} && !s.phase.Recovering? && !s.committing && |s.lh| + (s.outstanding + 1) * MAXOPBLOCKS <= LOGSIZE
    case LogCheck(op) =>
      && s.phase != Panicked && op in s.ops && op !in s.passed
      && (p.alone ==> s.passed == {}) && (p.budget.Calls? ==> s.ops[op].calls < p.budget.n)
    case LogAppend(op, bn, data) =>
      && s.phase != Panicked && op in s.passed && op in s.ops && bn < |s.store| && bn < WORD && !a.Contains(bn)
      && (p.budget.Blocks? ==> |s.ops[op].blocks + {bn}| <= p.budget.n)
    case EndOp(op) => s.phase != Panicked && op in s.ops && op !in s.passed
    case FillSlot => s.phase.Filling? && s.phase.k < |s.lh| && a.start + 1 + s.phase.k < |s.disk| && s.lh[s.phase.k] < |s.store|
    case WriteHeader => s.phase.Filling? && s.phase.k == |s.lh| > 0 && a.Fits(s.disk) && |s.lh| <= LOGSIZE && (forall i :: 0 <= i < |s.lh| ==> s.lh[i] < WORD)
    case InstallSlot => s.phase.Installing? && s.phase.k < |s.lh| && a.start + 1 + s.phase.k < |s.disk| && s.lh[s.phase.k] < |s.disk|
    case ClearHeader => s.phase.Installing? && s.phase.k == |s.lh| && a.Fits(s.disk)
    case NothingToCommit => s.phase == Filling(0) && s.lh == []
    case CommitDone => s.phase == Cleared
    case Crash => s.phase != Down
    case Reboot => s.phase == Down && a.Fits(s.disk) && Word(s.disk[a.start], 0) <= LOGSIZE
    case RecoverSlot => s.phase.Recovering? && s.phase.k < |s.lh| && a.start + 1 + s.phase.k < |s.disk| && s.lh[s.phase.k] < |s.disk|
    case RecoverClear => s.phase.Recovering? && s.phase.k == |s.lh| && a.Fits(s.disk)
  }

  ghost function Do(p: Policy, a: Area, s: State, step: Step): (t: State)
    requires Enabled(p, a, s, step)
  {
    match step
    case BeginOp =>
      s.(outstanding := s.outstanding + 1, ops := s.ops[s.nextOp := Use(0, {})], nextOp := s.nextOp + 1)
    case LogCheck(op) =>
      if |s.lh| >= LOGSIZE || |s.lh| >= a.size - 1 || s.outstanding < 1 then s.(phase := Panicked)
      else s.(passed := s.passed + {op}, ops := s.ops[op := Use(s.ops[op].calls + 1, s.ops[op].blocks)])
    case LogAppend(op, bn, data) =>
      s.(lh := Append(s.lh, bn), store := s.store[bn := data], open := s.open + [Write(op, bn, data)],
         ops := s.ops[op := Use(s.ops[op].calls, s.ops[op].blocks + {bn})], passed := s.passed - {op})
    case EndOp(op) =>
      if s.committing then s.(phase := Panicked)
      else
        var t := s.(outstanding := s.outstanding - 1, ops := s.ops - {op});
        if t.outstanding == 0 then t.(committing := true, phase := Filling(0)) else t
    case FillSlot =>
      s.(disk := s.disk[a.start + 1 + s.phase.k := s.store[s.lh[s.phase.k]]], phase := Filling(s.phase.k + 1))
    case WriteHeader =>
      s.(disk := s.disk[a.start := PutHead(s.disk[a.start], s.lh)], groups := s.groups + [s.open], open := [], phase := Installing(0))
    case InstallSlot =>
      s.(disk := s.disk[s.lh[s.phase.k] := s.disk[a.start + 1 + s.phase.k]], phase := Installing(s.phase.k + 1))
    case ClearHeader =>
      s.(disk := s.disk[a.start := PutHead(s.disk[a.start], [])], lh := [], phase := Cleared)
    case NothingToCommit =>
      s.(phase := Cleared)
    case CommitDone =>
      s.(committing := false, phase := Open)
    case Crash =>
      s.(phase := Down, outstanding := 0, committing := false, lh := [], store := s.disk, ops := map[], passed := {},
         open := [], lost := s.lost + s.ops.Keys + OpsOf(s.open))
    case Reboot =>
      s.(phase := Recovering(0), lh := Head(s.disk[a.start]))
    case RecoverSlot =>
      s.(disk := s.disk[s.lh[s.phase.k] := s.disk[a.start + 1 + s.phase.k]], phase := Recovering(s.phase.k + 1))
    case RecoverClear =>
      var d := s.disk[a.start := PutHead(s.disk[a.start], [])];
      s.(disk := d, store := d, lh := [], phase := Open)
  }

  /** t is reached from s by these steps. */
  ghost predicate Runs(p: Policy, a: Area, s: State, steps: seq<Step>, t: State)
    decreases |steps|
  {
    if steps == [] then s == t
    else Enabled(p, a, s, steps[0]) && Runs(p, a, Do(p, a, s, steps[0]), steps[1..], t)
  }

  /** A freshly formatted disk, mounted. */
  ghost predicate Init(a: Area, d0: Disk, s: State) {
    && a.Fits(d0) && Word(d0[a.start], 0) == 0
    && s == State(Open, 0, false, [], d0, d0, map[], {}, 0, [], [], {})
  }

  // ---- what the writes amount to ----

  ghost function Flatten(groups: seq<seq<Write>>): (r: seq<Write>) {
    if groups == [] then [] else Flatten(groups[..|groups| - 1]) + groups[|groups| - 1]
  }

  /** The disk that the committed groups, one after the other, make of d0. */
  ghost function Durable(d0: Disk, s: State): (r: Disk)
    ensures |r| == |d0|
  {
    Replay(d0, Flatten(s.groups))
  }

  // ---- what the steps alone say has been written ----

  /** The log_write calls that no crash has undone, in order; those before the mark are committed. */
  datatype History = History(writes: seq<Write>, mark: nat)

  /** A log_write call is remembered, a header write commits all that is remembered, and a crash undoes
      what is not committed. */
  function Tell(h: History, step: Step): (r: History)
    requires h.mark <= |h.writes|
    ensures r.mark <= |r.writes|
  {
    match step
    case LogAppend(op, bn, data) => h.(writes := h.writes + [Write(op, bn, data)])
    case WriteHeader => h.(mark := |h.writes|)
    case Crash => h.(writes := h.writes[..h.mark])
    case _ => h
  }

  function Told(h: History, steps: seq<Step>): (r: History)
    requires h.mark <= |h.writes|
    ensures r.mark <= |r.writes|
    decreases |steps|
  {
    if steps == [] then h else Told(Tell(h, steps[0]), steps[1..])
  }

  /** The log_write calls of a whole run that survive it. */
  function Survivors(steps: seq<Step>): (r: History)
    ensures r.mark <= |r.writes|
  {
    Told(History([], 0), steps)
  }

  ghost predicate Remembers(s: State, h: History) {
    h.mark == |Flatten(s.groups)| && h.writes == Flatten(s.groups) + s.open
  }

  lemma TellKept(p: Policy, a: Area, s: State, step: Step, h: History)
    requires Enabled(p, a, s, step) && h.mark <= |h.writes| && Remembers(s, h)
    ensures Remembers(Do(p, a, s, step), Tell(h, step))
  {
    var t := Do(p, a, s, step);
    if step == WriteHeader {
      assert t.groups[..|t.groups| - 1] == s.groups;
    }
  }

  lemma {:induction false} ToldKept(p: Policy, a: Area, s: State, steps: seq<Step>, t: State, h: History)
    requires Runs(p, a, s, steps, t) && h.mark <= |h.writes| && Remembers(s, h)
    ensures Remembers(t, Told(h, steps))
    decreases |steps|
  {
    hide Enabled, Do, Remembers, Tell;
    if steps != [] {
      TellKept(p, a, s, steps[0], h);
      ToldKept(p, a, Do(p, a, s, steps[0]), steps[1..], t, Tell(h, steps[0]));
    }
  }

  // ---- what the operations in progress may still log ----

  /** With n blocks allowed to each, how many are left to the operations together. */
  ghost function Spare(m: map<nat, Use>, n: nat): (k: int)
    decreases |m|
  {
    if m == map[] then 0
    else
      var k :| k in m;
      n - |m[k].blocks| + Spare(m - {k}, n)
  }

  lemma {:induction false} SpareWithout(m: map<nat, Use>, n: nat, k: nat)
    requires k in m
    ensures Spare(m, n) == n - |m[k].blocks| + Spare(m - {k}, n)
    decreases |m|
  {
    var j :| j in m && Spare(m, n) == n - |m[j].blocks| + Spare(m - {j}, n);
    if j != k {
      assert m - {j} - {k} == m - {k} - {j};
      SpareWithout(m - {j}, n, k);
      SpareWithout(m - {k}, n, j);
    }
  }

  lemma SpareUpdated(m: map<nat, Use>, n: nat, k: nat, v: Use)
    ensures Spare(m[k := v], n) == Spare(m - {k}, n) + n - |v.blocks|
    ensures k in m ==> Spare(m[k := v], n) == Spare(m, n) + |m[k].blocks| - |v.blocks|
  {
    SpareWithout(m[k := v], n, k);
    assert m[k := v] - {k} == m - {k};
    if k in m {
      SpareWithout(m, n, k);
    }
  }

  lemma {:induction false} SpareLeft(m: map<nat, Use>, n: nat)
    requires forall k :: k in m ==> |m[k].blocks| <= n
    ensures Spare(m, n) >= 0
    decreases |m|
  {
    if m != map[] {
      var k :| k in m;
      SpareWithout(m, n, k);
      SpareLeft(m - {k}, n);
    }
  }

  /** Two operations have at most two budgets left. */
  lemma SpareOfFew(m: map<nat, Use>, n: nat)
    requires |m| <= 2
    ensures Spare(m, n) <= 2 * n && (|m| <= 1 ==> Spare(m, n) <= n) && (m == map[] ==> Spare(m, n) == 0)
  {
    if m != map[] {
      var k :| k in m;
      SpareWithout(m, n, k);
      SizeWithout(m, k);
      var r := m - {k};
      if r != map[] {
        var j :| j in r;
        SpareWithout(r, n, j);
        SizeWithout(r, j);
        assert r - {j} == map[];
      }
    }
  }

  lemma SizeWithout(m: map<nat, Use>, k: nat)
    requires k in m
    ensures |m - {k}| == |m| - 1
  {
    assert m.Keys == (m - {k}).Keys + {k};
  }

  // ---- what every run keeps, whatever the operations do ----

  ghost predicate Busy(p: Phase) {
    p.Filling? || p.Installing? || p == Cleared
  }

  /** A commit or a recovery runs only when no operation is in progress. */
  ghost predicate Quiet(s: State) {
    && s.outstanding == |s.ops| && s.passed <= s.ops.Keys
    && (s.committing <==> Busy(s.phase))
    && (s.committing || s.phase == Down || s.phase.Recovering? ==> s.ops == map[])
  }

  lemma QuietKept(p: Policy, a: Area, s: State, step: Step)
    requires Quiet(s) && s.nextOp !in s.ops && Enabled(p, a, s, step)
    ensures Quiet(Do(p, a, s, step))
  {
    hide OpsOf, Append;
    if step.BeginOp? || step.LogCheck? || step.LogAppend? || step.EndOp? {
      QuietCalls(p, a, s, step);
    }
  }

  lemma QuietCalls(p: Policy, a: Area, s: State, step: Step)
    requires Quiet(s) && s.nextOp !in s.ops && Enabled(p, a, s, step) && (step.BeginOp? || step.LogCheck? || step.LogAppend? || step.EndOp?)
    ensures Quiet(Do(p, a, s, step))
  {
    hide OpsOf, Append, Busy;
    NotBusy();
    match step
    case BeginOp => UpdateSize(s.ops, s.nextOp, Use(0, {}));
    case LogCheck(op) => UpdateSize(s.ops, op, Use(s.ops[op].calls + 1, s.ops[op].blocks));
    case LogAppend(op, bn, _) => UpdateSize(s.ops, op, Use(s.ops[op].calls, s.ops[op].blocks + {bn}));
    case EndOp(op) => SizeWithout(s.ops, op);
  }

  lemma NotBusy()
    ensures !Busy(Panicked) && Busy(Filling(0))
  {
  }

  ghost predicate InGroup(s: State, g: nat, op: nat) {
    g < |s.groups| && op in OpsOf(s.groups[g])
  }

  /** Still open: the operation is in progress or its writes are in the open group. */
  ghost predicate Current(s: State, op: nat) {
    op in s.ops || op in OpsOf(s.open)
  }

  /** Operation numbers are used once, and the writes of an operation are in one place: the open
      group, one committed group, or lost. */
  ghost predicate OnePlace(s: State) {
    && (forall op: nat :: Current(s, op) ==> op < s.nextOp && op !in s.lost)
    && (forall op: nat :: op in s.lost ==> op < s.nextOp)
    && (forall g: nat, op: nat :: InGroup(s, g, op) ==> op < s.nextOp && !Current(s, op) && op !in s.lost)
    && (forall g: nat, h: nat, op: nat :: InGroup(s, g, op) && InGroup(s, h, op) ==> g == h)
  }

  lemma OnePlaceKept(p: Policy, a: Area, s: State, step: Step)
    requires Quiet(s) && OnePlace(s) && Enabled(p, a, s, step)
    ensures OnePlace(Do(p, a, s, step))
  {
    hide OpsOf, OnePlace;
    if step.LogAppend? {
      OpsOfMore(s.open, Write(step.op, step.bn, step.data));
      SamePlaces(s, Do(p, a, s, step));
    } else if step == WriteHeader {
      NoOps();
      GroupMoved(s, Do(p, a, s, step));
    } else if step == Crash {
      NoOps();
      GroupLost(s, Do(p, a, s, step));
    } else {
      SamePlaces(s, Do(p, a, s, step));
    }
  }

  lemma NextIsNew(s: State)
    requires OnePlace(s)
    ensures s.nextOp !in s.ops
  {
    assert !Current(s, s.nextOp);
  }

  lemma NothingYet(s: State)
    requires s.ops == map[] && s.open == [] && s.groups == [] && s.lost == {}
    ensures OnePlace(s)
  {
  }

  lemma SamePlaces(s: State, t: State)
    requires OnePlace(s) && t.groups == s.groups && t.lost == s.lost && t.nextOp >= s.nextOp
    requires forall op: nat :: Current(t, op) ==> Current(s, op) || s.nextOp <= op < t.nextOp
    ensures OnePlace(t)
  {
    hide OpsOf, Current;
    assert forall g: nat, op: nat :: InGroup(t, g, op) <==> InGroup(s, g, op);
  }

  lemma GroupMoved(s: State, t: State)
    requires OnePlace(s) && t.groups == s.groups + [s.open] && OpsOf(t.open) == {} && t.lost == s.lost && t.nextOp == s.nextOp
    requires t.ops == s.ops == map[]
    ensures OnePlace(t)
  {
    hide OpsOf;
    assert forall g: nat, op: nat :: InGroup(t, g, op) ==> InGroup(s, g, op) || (g == |s.groups| && Current(s, op));
    assert forall op: nat :: !Current(t, op);
  }

  lemma GroupLost(s: State, t: State)
    requires OnePlace(s) && t.groups == s.groups && OpsOf(t.open) == {} && t.ops == map[] && t.nextOp == s.nextOp
    requires forall op: nat :: op in t.lost ==> op in s.lost || Current(s, op)
    ensures OnePlace(t)
  {
    hide OpsOf;
    assert forall g: nat, op: nat :: InGroup(t, g, op) <==> InGroup(s, g, op);
    assert forall op: nat :: !Current(t, op);
  }

  lemma OpsOfMore(ws: seq<Write>, w: Write)
    ensures OpsOf(ws + [w]) == OpsOf(ws) + {w.op}
  {
    forall op | op in OpsOf(ws) + {w.op} ensures op in OpsOf(ws + [w]) {
      if op in OpsOf(ws) {
        var i :| 0 <= i < |ws| && ws[i].op == op;
        assert (ws + [w])[i].op == op;
      } else {
        assert (ws + [w])[|ws|].op == op;
      }
    }
  }

  lemma NoOps()
    ensures OpsOf([]) == {}
  {
  }

  lemma {:induction false} RunKeepsOrder(p: Policy, a: Area, s: State, steps: seq<Step>, t: State)
    requires Quiet(s) && OnePlace(s) && Runs(p, a, s, steps, t)
    ensures Quiet(t) && OnePlace(t)
    decreases |steps|
  {
    hide Enabled, Do, OpsOf, OnePlace, Quiet;
    if steps != [] {
      NextIsNew(s);
      QuietKept(p, a, s, steps[0]);
      OnePlaceKept(p, a, s, steps[0]);
      RunKeepsOrder(p, a, Do(p, a, s, steps[0]), steps[1..], t);
    }
  }

  /** With no condition on the operations or on the log area, in every run: a commit runs with no
      operation in progress, so end_op's panic cannot happen and the list stands still meanwhile;
      the writes of one operation are all in one committed group, all open or all lost; and the groups
      and the open writes are, in order, the log_write calls that survive the run. */
  lemma CommitsRunAlone(p: Policy, a: Area, d0: Disk, s0: State, steps: seq<Step>, t: State)
    requires Init(a, d0, s0) && Runs(p, a, s0, steps, t)
    ensures Quiet(t)
    ensures forall op :: Enabled(p, a, t, EndOp(op)) ==> Do(p, a, t, EndOp(op)).phase != Panicked
    ensures forall step :: Enabled(p, a, t, step) && t.committing && step != ClearHeader && step != Crash ==> Do(p, a, t, step).lh == t.lh
    ensures forall g, h, op :: 0 <= g < h < |t.groups| && op in OpsOf(t.groups[g]) ==> op !in OpsOf(t.groups[h])
    ensures forall g, op :: 0 <= g < |t.groups| && op in OpsOf(t.groups[g]) ==> op !in t.ops && op !in OpsOf(t.open) && op !in t.lost
    ensures Flatten(t.groups) + t.open == Survivors(steps).writes && |Flatten(t.groups)| == Survivors(steps).mark
  {
    hide OnePlace, OpsOf, Runs, Append, Quiet, Init, Enabled, Do;
    NothingAtFirst(a, d0, s0);
    AllRemembered(p, a, d0, s0, steps, t);
    RunKeepsOrder(p, a, s0, steps, t);
    InOneGroup(t);
    forall step | Enabled(p, a, t, step) ensures t.committing && step != ClearHeader && step != Crash ==> Do(p, a, t, step).lh == t.lh {
      StandsStill(p, a, t, step);
    }
    forall op | Enabled(p, a, t, EndOp(op)) ensures Do(p, a, t, EndOp(op)).phase != Panicked {
      StandsStill(p, a, t, EndOp(op));
    }
  }

  lemma AllRemembered(p: Policy, a: Area, d0: Disk, s0: State, steps: seq<Step>, t: State)
    requires Init(a, d0, s0) && Runs(p, a, s0, steps, t)
    ensures Remembers(t, Survivors(steps))
  {
    hide Runs, Told;
    assert Remembers(s0, History([], 0));
    ToldKept(p, a, s0, steps, t, History([], 0));
  }

  lemma NothingAtFirst(a: Area, d0: Disk, s: State)
    requires Init(a, d0, s)
    ensures Quiet(s) && OnePlace(s)
  {
    NothingYet(s);
  }

  lemma StandsStill(p: Policy, a: Area, s: State, step: Step)
    requires Quiet(s) && Enabled(p, a, s, step)
    ensures s.outstanding == |s.ops| && (s.committing ==> s.outstanding == 0)
    ensures s.committing && step != ClearHeader && step != Crash ==> Do(p, a, s, step).lh == s.lh
    ensures step.EndOp? ==> Do(p, a, s, step).phase != Panicked
  {
    hide Append, OpsOf;
  }

  lemma InOneGroup(t: State)
    requires OnePlace(t)
    ensures forall g, h, op :: 0 <= g < h < |t.groups| && op in OpsOf(t.groups[g]) ==> op !in OpsOf(t.groups[h])
    ensures forall g, op :: 0 <= g < |t.groups| && op in OpsOf(t.groups[g]) ==> op !in t.ops && op !in OpsOf(t.open) && op !in t.lost
  {
    hide OpsOf;
    forall g, h, op | 0 <= g < h < |t.groups| && op in OpsOf(t.groups[g]) ensures op !in OpsOf(t.groups[h]) {
      assert InGroup(t, g, op) && !InGroup(t, h, op);
    }
    forall g, op | 0 <= g < |t.groups| && op in OpsOf(t.groups[g]) ensures op !in t.ops && op !in OpsOf(t.open) && op !in t.lost {
      assert InGroup(t, g, op) && !Current(t, op);
    }
  }

  // ---- the reservation ----

  /** Enough to log nothing at all. */
  predicate Nothing(p: Policy, a: Area) {
    a.size == 1 || (!p.budget.NoBudget? && p.budget.n == 0)
  }

  /** A budget begin_op's reservation covers. */
  predicate Covered(p: Policy) {
    !p.budget.NoBudget? && p.budget.n <= MAXOPBLOCKS
  }

  /** Blocks listed, plus what every operation in progress may still add.  begin_op lets a second
      operation in beside one only while MAXOPBLOCKS blocks are listed, a third only while none are. */
  ghost predicate Reserved(n: nat, s: State) {
    |s.lh| + Spare(s.ops, n) <= MAXOPBLOCKS + 2 * n
  }

  ghost predicate UseOk(p: Policy, s: State, op: nat)
    requires op in s.ops
  {
    && (forall b :: b in s.ops[op].blocks ==> b in s.lh)
    && |s.ops[op].blocks| + (if op in s.passed then 1 else 0) <= s.ops[op].calls
    && (p.budget.Calls? ==> s.ops[op].calls <= p.budget.n)
    && (p.budget.Blocks? ==> |s.ops[op].blocks| <= p.budget.n)
  }

  ghost predicate UsesOk(p: Policy, s: State) {
    forall op :: op in s.ops ==> UseOk(p, s, op)
  }

  ghost predicate Room(p: Policy, a: Area, s: State) {
    && UsesOk(p, s)
    && (s.phase == Open && s.ops == map[] ==> s.lh == [])
    && (s.phase == Open && p.alone ==> |s.lh| + |s.passed| <= Cap(a))
    && (s.phase == Open && Covered(p) ==> Reserved(p.budget.n, s))
    && (Nothing(p, a) ==> s.lh == [])
    && (a.size == 1 || p.budget == Calls(0) ==> s.passed == {})
  }

  /** When the list stays inside lh.block and inside the log area: log_write calls one at a time, or
      nothing to log, or a covered budget and slots for all begin_op lets in. */
  predicate Safe(p: Policy, a: Area) {
    || p.alone
    || Nothing(p, a)
    || (Covered(p) && a.size > MAXOPBLOCKS + 2 * p.budget.n)
  }

  /** The operations in progress together have at least what one of them has left. */
  lemma SpareOf(p: Policy, a: Area, s: State, op: nat)
    requires Room(p, a, s) && Covered(p) && op in s.ops
    ensures Spare(s.ops, p.budget.n) >= p.budget.n - |s.ops[op].blocks| >= 0
  {
    hide Spare;
    forall k | k in s.ops ensures |s.ops[k].blocks| <= p.budget.n {
      assert UseOk(p, s, k);
    }
    SpareWithout(s.ops, p.budget.n, op);
    SpareLeft(s.ops - {op}, p.budget.n);
  }

  lemma RoomFits(p: Policy, a: Area, s: State)
    requires Room(p, a, s) && Safe(p, a) && s.phase == Open && 0 < a.size
    ensures |s.lh| <= LOGSIZE && |s.lh| < a.size
  {
    hide Spare;
    if !p.alone && !Nothing(p, a) && s.ops != map[] {
      var op :| op in s.ops;
      SpareOf(p, a, s, op);
    }
  }

  lemma BeginRoom(p: Policy, a: Area, s: State)
    requires Room(p, a, s) && Quiet(s) && s.nextOp !in s.ops && Enabled(p, a, s, BeginOp)
    ensures Room(p, a, Do(p, a, s, BeginOp))
  {
    hide Spare;
    var t := Do(p, a, s, BeginOp);
    forall op | op in t.ops ensures UseOk(p, t, op) {
      if op != s.nextOp { assert UseOk(p, s, op); }
    }
    if s.phase == Open && Covered(p) {
      SpareUpdated(s.ops, p.budget.n, s.nextOp, Use(0, {}));
      assert s.ops - {s.nextOp} == s.ops;
      SpareOfFew(s.ops, p.budget.n);
    }
  }

  lemma CheckUses(p: Policy, a: Area, s: State, op: nat)
    requires UsesOk(p, s) && Enabled(p, a, s, LogCheck(op))
    ensures UsesOk(p, Do(p, a, s, LogCheck(op)))
  {
    var t := Do(p, a, s, LogCheck(op));
    forall o | o in t.ops ensures UseOk(p, t, o) {
      assert UseOk(p, s, o);
    }
  }

  lemma CheckRoom(p: Policy, a: Area, s: State, op: nat)
    requires Room(p, a, s) && Quiet(s) && Enabled(p, a, s, LogCheck(op))
    ensures Room(p, a, Do(p, a, s, LogCheck(op)))
  {
    hide Spare, UsesOk, Busy;
    CheckUses(p, a, s, op);
    AddSize(s.passed, op);
    if Covered(p) {
      SpareUpdated(s.ops, p.budget.n, op, Use(s.ops[op].calls + 1, s.ops[op].blocks));
    }
  }

  lemma AppendUses(p: Policy, a: Area, s: State, op: nat, bn: nat, data: Block)
    requires UsesOk(p, s) && Enabled(p, a, s, LogAppend(op, bn, data))
    ensures UsesOk(p, Do(p, a, s, LogAppend(op, bn, data))) && (bn in s.ops[op].blocks ==> bn in s.lh)
  {
    var t := Do(p, a, s, LogAppend(op, bn, data));
    assert UseOk(p, s, op);
    AddSize(s.ops[op].blocks, bn);
    forall o | o in t.ops ensures UseOk(p, t, o) {
      assert UseOk(p, s, o);
    }
  }

  lemma AppendRoom(p: Policy, a: Area, s: State, op: nat, bn: nat, data: Block)
    requires Room(p, a, s) && Quiet(s) && Enabled(p, a, s, LogAppend(op, bn, data))
    ensures Room(p, a, Do(p, a, s, LogAppend(op, bn, data)))
  {
    hide Spare, UsesOk, Busy, OpsOf;
    var u, t := s.ops[op], Do(p, a, s, LogAppend(op, bn, data));
    assert op in t.ops && op in s.passed;
    AppendUses(p, a, s, op, bn, data);
    AddSize(u.blocks, bn);
    RemoveSize(s.passed, op);
    if Covered(p) {
      SpareUpdated(s.ops, p.budget.n, op, Use(u.calls, u.blocks + {bn}));
    }
  }

  lemma EndRoom(p: Policy, a: Area, s: State, op: nat)
    requires Room(p, a, s) && Quiet(s) && Enabled(p, a, s, EndOp(op))
    ensures Room(p, a, Do(p, a, s, EndOp(op)))
  {
    hide Spare;
    var t := Do(p, a, s, EndOp(op));
    SizeWithout(s.ops, op);
    assert UseOk(p, s, op);
    forall o | o in t.ops ensures UseOk(p, t, o) {
      assert UseOk(p, s, o);
    }
    if Covered(p) {
      SpareWithout(s.ops, p.budget.n, op);
    }
  }

  // ---- the invariant ----

  ghost predicate Listed(a: Area, s: State) {
    && Loggable(a, s.lh, |s.disk|)
    && (forall i :: 0 <= i < |s.open| ==> s.open[i].bn in s.lh)
    && (s.phase.Open? || s.phase.Filling? || s.phase.Panicked? || s.open == [])
    && (s.lh == [] ==> s.open == [])
  }

  /** What the disk and the cache hold in each phase. */
  ghost predicate Stored(a: Area, d0: Disk, s: State) {
    && a.Fits(d0) && |s.disk| == |s.store| == |d0|
    && Sound(a, s.disk) && SameHome(a, Recover(a, s.disk), Durable(d0, s))
    && (s.phase != Down && !s.phase.Recovering? ==> SameHome(a, s.store, Replay(Durable(d0, s), s.open)))
    && match s.phase
       case Open => Word(s.disk[a.start], 0) == 0
       case Filling(k) =>
         && Word(s.disk[a.start], 0) == 0 && k <= |s.lh| < a.size
         && forall i :: 0 <= i < k && s.lh[i] < |s.store| ==> s.disk[a.start + 1 + i] == s.store[s.lh[i]]
       case Installing(k) => Copied(a, s, k)
       case Cleared => Word(s.disk[a.start], 0) == 0 && s.lh == []
       case Down => s.lh == []
       case Recovering(k) => Copied(a, s, k)
       case Panicked => Word(s.disk[a.start], 0) == 0
  }

  ghost predicate Copied(a: Area, s: State, k: nat)
    requires Sound(a, s.disk)
  {
    && Head(s.disk[a.start]) == s.lh && k <= |s.lh|
    && forall i :: 0 <= i < k ==> s.disk[s.lh[i]] == s.disk[a.start + 1 + i]
  }

  /** Where nothing can be logged the header stays empty. */
  ghost predicate Inv(p: Policy, a: Area, d0: Disk, s: State) {
    && Quiet(s) && Stored(a, d0, s) && Listed(a, s) && Room(p, a, s)
    && (Nothing(p, a) ==> Word(s.disk[a.start], 0) == 0)
  }

  lemma SameGroups(d0: Disk, s: State, t: State)
    requires s.groups == t.groups
    ensures Durable(d0, t) == Durable(d0, s)
  {
  }

  lemma InitInv(p: Policy, a: Area, d0: Disk, s: State)
    requires Init(a, d0, s)
    ensures Inv(p, a, d0, s)
  {
    EmptyLogMeansHome(a, d0);
  }

  lemma BeginOpKeeps(p: Policy, a: Area, d0: Disk, s: State)
    requires Inv(p, a, d0, s) && Enabled(p, a, s, BeginOp) && s.nextOp !in s.ops
    ensures Inv(p, a, d0, Do(p, a, s, BeginOp))
  {
    hide Room, Recover, Replay, Copied;
    QuietKept(p, a, s, BeginOp);
    BeginRoom(p, a, s);
    SameGroups(d0, s, Do(p, a, s, BeginOp));
  }

  lemma LogCheckKeeps(p: Policy, a: Area, d0: Disk, s: State, op: nat)
    requires Inv(p, a, d0, s) && Enabled(p, a, s, LogCheck(op)) && s.nextOp !in s.ops
    ensures Inv(p, a, d0, Do(p, a, s, LogCheck(op)))
  {
    hide Room, Recover, Replay, Copied;
    QuietKept(p, a, s, LogCheck(op));
    CheckRoom(p, a, s, op);
    SameGroups(d0, s, Do(p, a, s, LogCheck(op)));
  }

  lemma LogAppendKeeps(p: Policy, a: Area, d0: Disk, s: State, op: nat, bn: nat, data: Block)
    requires Inv(p, a, d0, s) && Safe(p, a) && Enabled(p, a, s, LogAppend(op, bn, data)) && s.nextOp !in s.ops
    ensures Inv(p, a, d0, Do(p, a, s, LogAppend(op, bn, data)))
  {
    hide Recover, Sound, Flatten, Copied, OpsOf, Room;
    var t := Do(p, a, s, LogAppend(op, bn, data));
    QuietKept(p, a, s, LogAppend(op, bn, data));
    AppendRoom(p, a, s, op, bn, data);
    RoomFits(p, a, t);
    assert t.open[..|t.open| - 1] == s.open;
    assert Replay(Durable(d0, s), t.open) == Replay(Durable(d0, s), s.open)[bn := data];
    assert Durable(d0, t) == Durable(d0, s);
  }

  lemma EndOpKeeps(p: Policy, a: Area, d0: Disk, s: State, op: nat)
    requires Inv(p, a, d0, s) && Enabled(p, a, s, EndOp(op)) && s.nextOp !in s.ops
    ensures Inv(p, a, d0, Do(p, a, s, EndOp(op)))
  {
    hide Recover, Sound, Replay, Room;
    QuietKept(p, a, s, EndOp(op));
    EndRoom(p, a, s, op);
    SameGroups(d0, s, Do(p, a, s, EndOp(op)));
  }

  lemma FillSlotKeeps(p: Policy, a: Area, d0: Disk, s: State)
    requires Inv(p, a, d0, s) && Enabled(p, a, s, FillSlot)
    ensures Inv(p, a, d0, Do(p, a, s, FillSlot))
  {
    hide Replay;
    EmptyLogMeansHome(a, s.disk);
    SlotWriteInvisible(a, s.disk, s.phase.k, s.store[s.lh[s.phase.k]]);
  }

  /** The group becomes durable with this one block write. */
  lemma WriteHeaderKeeps(p: Policy, a: Area, d0: Disk, s: State)
    requires Inv(p, a, d0, s) && Enabled(p, a, s, WriteHeader)
    ensures Inv(p, a, d0, Do(p, a, s, WriteHeader))
    ensures SameHome(a, Recover(a, Do(p, a, s, WriteHeader).disk), s.store)
  {
    var t := Do(p, a, s, WriteHeader);
    EmptyLogMeansHome(a, s.disk);
    forall b | 0 <= b < |s.disk| && !a.Contains(b) && b !in s.lh ensures s.disk[b] == s.store[b] {
      ReplayUntouched(Durable(d0, s), s.open, b);
    }
    HeaderWriteCommits(a, s.disk, s.lh, s.store);
    assert t.groups[..|t.groups| - 1] == s.groups;
    ReplayAppends(d0, Flatten(s.groups), s.open);
    assert Replay(Durable(d0, t), []) == Durable(d0, t);
  }

  lemma InstallStored(p: Policy, a: Area, d0: Disk, s: State, step: Step)
    requires Stored(a, d0, s) && Listed(a, s) && Enabled(p, a, s, step) && (step == InstallSlot || step == RecoverSlot)
    ensures Stored(a, d0, Do(p, a, s, step)) && Recover(a, Do(p, a, s, step).disk) == Recover(a, s.disk)
  {
    hide Replay, Recover, Durable, Word, Loggable;
    var t := Do(p, a, s, step);
    SameGroups(d0, s, t);
    InstallKeepsMeaning(a, s.disk, s.phase.k);
    CopiedOne(a, s, t);
  }

  lemma CopiedOne(a: Area, s: State, t: State)
    requires s.phase.Installing? || s.phase.Recovering?
    requires Sound(a, s.disk) && Sound(a, t.disk) && Copied(a, s, s.phase.k) && s.phase.k < |s.lh| && s.lh == t.lh
    requires t.disk == s.disk[s.lh[s.phase.k] := s.disk[a.start + 1 + s.phase.k]]
    ensures Copied(a, t, s.phase.k + 1)
  {
  }

  lemma InstallKeeps(p: Policy, a: Area, d0: Disk, s: State, step: Step)
    requires Inv(p, a, d0, s) && Enabled(p, a, s, step) && (step == InstallSlot || step == RecoverSlot)
    ensures Inv(p, a, d0, Do(p, a, s, step))
  {
    hide Stored;
    InstallStored(p, a, d0, s, step);
  }

  lemma ClearKeeps(p: Policy, a: Area, d0: Disk, s: State, step: Step)
    requires Inv(p, a, d0, s) && Enabled(p, a, s, step) && (step == ClearHeader || step == RecoverClear)
    ensures Inv(p, a, d0, Do(p, a, s, step)) && Recover(a, Do(p, a, s, step).disk) == Recover(a, s.disk)
  {
    hide Recover;
    ClearKeepsMeaning(a, s.disk);
    HeadRoundTrip(s.disk[a.start], []);
    NoSpare(p);
    var t := Do(p, a, s, step);
    assert Replay(Durable(d0, t), []) == Durable(d0, t);
  }

  lemma NoSpare(p: Policy)
    ensures !p.budget.NoBudget? ==> Spare(map[], p.budget.n) == 0
  {
  }

  lemma EndCommitKeeps(p: Policy, a: Area, d0: Disk, s: State, step: Step)
    requires Inv(p, a, d0, s) && Enabled(p, a, s, step) && (step == NothingToCommit || step == CommitDone)
    ensures Inv(p, a, d0, Do(p, a, s, step))
  {
    hide Recover, Sound, Replay;
    NoSpare(p);
    SameGroups(d0, s, Do(p, a, s, step));
  }

  lemma CrashKeeps(p: Policy, a: Area, d0: Disk, s: State)
    requires Inv(p, a, d0, s) && Enabled(p, a, s, Crash)
    ensures Inv(p, a, d0, Do(p, a, s, Crash))
  {
    hide Recover, Replay, Durable, Spare, Flatten, Copied, OpsOf;
    SameGroups(d0, s, Do(p, a, s, Crash));
  }

  lemma RebootKeeps(p: Policy, a: Area, d0: Disk, s: State)
    requires Inv(p, a, d0, s) && Enabled(p, a, s, Reboot)
    ensures Inv(p, a, d0, Do(p, a, s, Reboot))
  {
    hide Recover, Replay;
    SameGroups(d0, s, Do(p, a, s, Reboot));
  }

  lemma StepKeeps(p: Policy, a: Area, d0: Disk, s: State, step: Step)
    requires Safe(p, a) && Inv(p, a, d0, s) && Enabled(p, a, s, step) && s.nextOp !in s.ops
    ensures Inv(p, a, d0, Do(p, a, s, step))
  {
    hide Inv, Enabled, Do;
    match step
    case BeginOp => BeginOpKeeps(p, a, d0, s);
    case LogCheck(op) => LogCheckKeeps(p, a, d0, s, op);
    case LogAppend(op, bn, data) => LogAppendKeeps(p, a, d0, s, op, bn, data);
    case EndOp(op) => EndOpKeeps(p, a, d0, s, op);
    case FillSlot => FillSlotKeeps(p, a, d0, s);
    case WriteHeader => WriteHeaderKeeps(p, a, d0, s);
    case InstallSlot => InstallKeeps(p, a, d0, s, step);
    case ClearHeader => ClearKeeps(p, a, d0, s, step);
    case NothingToCommit => EndCommitKeeps(p, a, d0, s, step);
    case CommitDone => EndCommitKeeps(p, a, d0, s, step);
    case Crash => CrashKeeps(p, a, d0, s);
    case Reboot => RebootKeeps(p, a, d0, s);
    case RecoverSlot => InstallKeeps(p, a, d0, s, step);
    case RecoverClear => ClearKeeps(p, a, d0, s, step);
  }

  // ---- over whole runs ----

  lemma {:induction false} RunKeeps(p: Policy, a: Area, d0: Disk, s: State, steps: seq<Step>, t: State)
    requires Safe(p, a) && Inv(p, a, d0, s) && OnePlace(s) && Runs(p, a, s, steps, t)
    ensures Inv(p, a, d0, t) && OnePlace(t)
    decreases |steps|
  {
    hide Inv, Enabled, Do, OpsOf, OnePlace, Safe;
    if steps != [] {
      NextIsNew(s);
      StepKeeps(p, a, d0, s, steps[0]);
      InvQuiet(p, a, d0, s);
      OnePlaceKept(p, a, s, steps[0]);
      RunKeeps(p, a, d0, Do(p, a, s, steps[0]), steps[1..], t);
    }
  }

  lemma InvQuiet(p: Policy, a: Area, d0: Disk, s: State)
    requires Inv(p, a, d0, s)
    ensures Quiet(s)
  {
  }

  lemma ReachedInv(p: Policy, a: Area, d0: Disk, s0: State, steps: seq<Step>, t: State)
    requires Init(a, d0, s0) && Safe(p, a) && Runs(p, a, s0, steps, t)
    ensures Inv(p, a, d0, t)
  {
    NothingYet(s0);
    hide OnePlace, Runs, Inv, Safe;
    InitInv(p, a, d0, s0);
    RunKeeps(p, a, d0, s0, steps, t);
  }

  /** The list fits lh.block, and whenever the machine stops, recovery yields exactly the committed
      groups applied in order. */
  ghost predicate LogSafe(a: Area, d0: Disk, t: State) {
    |t.lh| <= LOGSIZE && Sound(a, t.disk) && SameHome(a, Recover(a, t.disk), Replay(d0, Flatten(t.groups)))
  }

  /** Crash safety of the log, for every interleaving and any number of crashes.  By the steps alone: the disk
      recovers to the log_write calls up to the last header write, the readers of the cache see all that
      survive, and with no operation or commit under way these are the same. */
  lemma CrashSafety(p: Policy, a: Area, d0: Disk, s0: State, steps: seq<Step>, t: State)
    requires Init(a, d0, s0) && Safe(p, a) && Runs(p, a, s0, steps, t)
    ensures LogSafe(a, d0, t)
    ensures var h := Survivors(steps);
            && SameHome(a, Recover(a, t.disk), Replay(d0, h.writes[..h.mark]))
            && (t.phase != Down && !t.phase.Recovering? ==> SameHome(a, t.store, Replay(d0, h.writes)))
            && (t.phase == Open && t.outstanding == 0 ==> h.mark == |h.writes|)
  {
    hide Runs, Inv, Init, Safe, Survivors, Replay, Recover, SameHome, Sound;
    ReachedInv(p, a, d0, s0, steps, t);
    InvMeans(p, a, d0, t);
    AllRemembered(p, a, d0, s0, steps, t);
    ReplayAppends(d0, Flatten(t.groups), t.open);
    InvSeen(p, a, d0, t);
    assert Survivors(steps).writes[..Survivors(steps).mark] == Flatten(t.groups);
  }

  lemma InvSeen(p: Policy, a: Area, d0: Disk, t: State)
    requires Inv(p, a, d0, t)
    ensures t.phase != Down && !t.phase.Recovering? ==> SameHome(a, t.store, Replay(Replay(d0, Flatten(t.groups)), t.open))
    ensures t.phase == Open && t.outstanding == 0 ==> t.open == []
  {
    hide Recover, Replay, SameHome, UsesOk, Spare;
  }

  lemma InvMeans(p: Policy, a: Area, d0: Disk, t: State)
    requires Inv(p, a, d0, t)
    ensures LogSafe(a, d0, t)
  {
    hide Recover, Replay;
  }

  /** Only the header write changes what the disk recovers to, and it changes it to what the readers
      of the cache see; meanwhile the list stands still. */
  lemma HeaderWriteIsTheCommit(p: Policy, a: Area, d0: Disk, s: State, step: Step)
    requires Safe(p, a) && Inv(p, a, d0, s) && Enabled(p, a, s, step) && s.nextOp !in s.ops
    ensures var t := Do(p, a, s, step);
            && Sound(a, s.disk) && Sound(a, t.disk)
            && SameHome(a, Recover(a, t.disk), if step == WriteHeader then s.store else Recover(a, s.disk))
            && (s.committing && step != ClearHeader && step != Crash ==> t.lh == s.lh && t.outstanding == 0)
  {
    hide Recover, Replay, Inv, Safe, Do, Enabled;
    StepKeeps(p, a, d0, s, step);
    InvMeans(p, a, d0, s);
    InvMeans(p, a, d0, Do(p, a, s, step));
    CommitHoldsStill(p, a, d0, s, step);
    if step == WriteHeader {
      WriteHeaderKeeps(p, a, d0, s);
    }
  }

  lemma CommitHoldsStill(p: Policy, a: Area, d0: Disk, s: State, step: Step)
    requires Inv(p, a, d0, s) && Enabled(p, a, s, step)
    ensures var t := Do(p, a, s, step);
            && (step != WriteHeader ==> t.groups == s.groups)
            && (s.committing && step != ClearHeader && step != Crash ==> t.lh == s.lh && t.outstanding == 0)
  {
    hide Recover, Replay, Append, OpsOf, Room, Durable, Stored, Listed;
  }

  /** A commit or recovery under way can always take its next step. */
  lemma NeverStuck(p: Policy, a: Area, d0: Disk, s: State)
    requires Inv(p, a, d0, s)
    ensures s.phase.Filling? ==> Enabled(p, a, s, if s.lh == [] then NothingToCommit else if s.phase.k < |s.lh| then FillSlot else WriteHeader)
    ensures s.phase.Installing? ==> Enabled(p, a, s, if s.phase.k < |s.lh| then InstallSlot else ClearHeader)
    ensures s.phase == Cleared ==> Enabled(p, a, s, CommitDone)
    ensures s.phase == Down ==> Enabled(p, a, s, Reboot)
    ensures s.phase.Recovering? ==> Enabled(p, a, s, if s.phase.k < |s.lh| then RecoverSlot else RecoverClear)
  {
    hide Recover, Replay, Room;
  }
}
