/**
How much log.c's log can take: exactly which log areas and operations keep it
crash safe, and exactly which keep log_write's guards from panicking.
*/
module GroupLimits {
  import opened Blocks
  import BufferCache
  import opened Journal
  import opened Sets
  import opened Wal
  import opened GroupCommit

  // ---- reaching states ----

  ghost predicate Reach(p: Policy, a: Area, s: State, t: State) {
    exists steps :: Runs(p, a, s, steps, t)
  }

  lemma {:induction false} RunsOn(p: Policy, a: Area, s: State, steps: seq<Step>, t: State, step: Step)
    requires Runs(p, a, s, steps, t) && Enabled(p, a, t, step)
    ensures Runs(p, a, s, steps + [step], Do(p, a, t, step))
    decreases |steps|
  {
    hide Enabled, Do;
    var more := steps + [step];
    if steps == [] {
      assert more[1..] == [];
    } else {
      assert more[1..] == steps[1..] + [step];
      RunsOn(p, a, Do(p, a, s, steps[0]), steps[1..], t, step);
    }
  }

  lemma Stay(p: Policy, a: Area, s: State)
    ensures Reach(p, a, s, s)
  {
    assert Runs(p, a, s, [], s);
  }

  lemma Go(p: Policy, a: Area, s: State, t: State, step: Step)
    requires Reach(p, a, s, t) && Enabled(p, a, t, step)
    ensures Reach(p, a, s, Do(p, a, t, step))
  {
    hide Enabled, Do, Runs;
    var steps :| Runs(p, a, s, steps, t);
    RunsOn(p, a, s, steps, t, step);
  }

  /** The budget allows one more after k. */
  predicate Allows(b: Budget, k: nat) {
    b.NoBudget? || k < b.n
  }

  function Range(base: nat, k: nat): (r: seq<nat>)
    ensures |r| == k && forall i :: 0 <= i < k ==> r[i] == base + i
  {
    seq(k, i => base + i)
  }

  lemma RangeMore(base: nat, k: nat)
    ensures Append(Range(base, k), base + k) == Range(base, k + 1)
  {
  }

  // ---- filling the list ----

  /** The blocks behind the log area are listed, and nothing is on disk yet. */
  ghost predicate Listing(a: Area, d0: Disk, k: nat, t: State) {
    && t.phase == Open && !t.committing && t.passed == {} && |t.store| == |d0| && t.disk == d0 && t.groups == []
    && t.lh == Range(a.start + a.size, k)
  }

  /** Operation 0 is open; i operations have come and gone, each leaving one block. */
  ghost predicate Chained(a: Area, d0: Disk, i: nat, t: State) {
    Listing(a, d0, i, t) && t.outstanding == 1 && t.ops == map[0 := Use(0, {})] && t.nextOp == i + 1
  }

  /** Operations 0 and c are open and have made x and y calls. */
  ghost predicate Pair(a: Area, d0: Disk, c: nat, x: nat, y: nat, k: nat, t: State) {
    && Listing(a, d0, k, t) && t.outstanding == 2 && c != 0 && t.ops.Keys == {0, c}
    && t.ops[0].calls == x && |t.ops[0].blocks| <= x && t.ops[c].calls == y && |t.ops[c].blocks| <= y
  }

  lemma FirstOp(p: Policy, a: Area, d0: Disk, s0: State)
    requires Init(a, d0, s0)
    ensures Enabled(p, a, s0, BeginOp) && Chained(a, d0, 0, Do(p, a, s0, BeginOp))
  {
  }

  /** A whole log_write call. */
  lemma LogOne(p: Policy, a: Area, s0: State, t: State, op: nat, bn: nat, data: Block) returns (t': State)
    requires Reach(p, a, s0, t) && t.phase == Open && t.passed == {} && t.outstanding >= 1 && op in t.ops && |t.lh| < Cap(a)
    requires Allows(p.budget, t.ops[op].calls) && |t.ops[op].blocks| <= t.ops[op].calls && bn < |t.store| && bn < WORD && !a.Contains(bn)
    ensures Reach(p, a, s0, t')
    ensures t' == t.(lh := Append(t.lh, bn), store := t.store[bn := data], open := t.open + [Write(op, bn, data)],
                     ops := t.ops[op := Use(t.ops[op].calls + 1, t.ops[op].blocks + {bn})])
  {
    hide Reach, OpsOf, Word, Head, PutHead, Append;
    var t1 := Do(p, a, t, LogCheck(op));
    Go(p, a, s0, t, LogCheck(op));
    AddSize(t1.ops[op].blocks, bn);
    t' := Do(p, a, t1, LogAppend(op, bn, data));
    Go(p, a, s0, t1, LogAppend(op, bn, data));
    assert t1.passed - {op} == {};
    assert t1.ops[op := Use(t1.ops[op].calls, t1.ops[op].blocks + {bn})] == t.ops[op := Use(t.ops[op].calls + 1, t.ops[op].blocks + {bn})];
  }

  /** One operation comes, logs a block and goes, while operation 0 stays. */
  lemma ChainOne(p: Policy, a: Area, d0: Disk, s0: State, i: nat, t: State) returns (t': State)
    requires Reach(p, a, s0, t) && Chained(a, d0, i, t) && i < MAXOPBLOCKS && i < Cap(a) && Allows(p.budget, 0)
    requires a.start + a.size + i < |d0| < WORD
    ensures Reach(p, a, s0, t') && Chained(a, d0, i + 1, t')
  {
    hide Reach, OpsOf, Word, Head, PutHead, ZeroBlock;
    var c, bn := i + 1, a.start + a.size + i;
    var t1 := Do(p, a, t, BeginOp);
    Go(p, a, s0, t, BeginOp);
    var t3 := LogOne(p, a, s0, t1, c, bn, ZeroBlock());
    RangeMore(a.start + a.size, i);
    t' := Do(p, a, t3, EndOp(c));
    Go(p, a, s0, t3, EndOp(c));
    assert t'.ops == map[0 := Use(0, {})];
    assert t'.passed == {};
  }

  lemma {:induction false} Chain(p: Policy, a: Area, d0: Disk, s0: State, z: nat) returns (t: State)
    requires Init(a, d0, s0) && z <= MAXOPBLOCKS && z <= Cap(a) && (z > 0 ==> Allows(p.budget, 0)) && a.start + a.size + z <= |d0| < WORD
    ensures Reach(p, a, s0, t) && Chained(a, d0, z, t)
  {
    hide Reach, Chained, Enabled, Do;
    if z == 0 {
      Stay(p, a, s0);
      FirstOp(p, a, d0, s0);
      Go(p, a, s0, s0, BeginOp);
      t := Do(p, a, s0, BeginOp);
    } else {
      t := Chain(p, a, d0, s0, z - 1);
      t := ChainOne(p, a, d0, s0, z - 1, t);
    }
  }

  lemma SecondOp(p: Policy, a: Area, d0: Disk, z: nat, t: State)
    requires Chained(a, d0, z, t) && z <= MAXOPBLOCKS
    ensures Enabled(p, a, t, BeginOp) && Pair(a, d0, z + 1, 0, 0, z, Do(p, a, t, BeginOp))
  {
  }

  /** One of the pair logs one more block. */
  lemma PairOne(p: Policy, a: Area, d0: Disk, s0: State, c: nat, x: nat, y: nat, k: nat, second: bool, t: State) returns (t': State)
    requires Reach(p, a, s0, t) && Pair(a, d0, c, x, y, k, t) && k < Cap(a) && Allows(p.budget, if second then y else x)
    requires a.start + a.size + k < |d0| < WORD
    ensures Reach(p, a, s0, t') && Pair(a, d0, c, if second then x else x + 1, if second then y + 1 else y, k + 1, t')
  {
    hide Reach, OpsOf, Do, Enabled, ZeroBlock;
    var op, bn := if second then c else 0, a.start + a.size + k;
    AddSize(t.ops[op].blocks, bn);
    t' := LogOne(p, a, s0, t, op, bn, ZeroBlock());
    RangeMore(a.start + a.size, k);
    assert t'.ops.Keys == t.ops.Keys;
  }

  /** z blocks from operations that are gone, then y of one operation and x of another. */
  lemma {:induction false} Fill(p: Policy, a: Area, d0: Disk, s0: State, z: nat, x: nat, y: nat) returns (t: State)
    requires Init(a, d0, s0) && z <= MAXOPBLOCKS && z + x + y <= Cap(a) && (z > 0 ==> Allows(p.budget, 0))
    requires (x > 0 ==> Allows(p.budget, x - 1)) && (y > 0 ==> Allows(p.budget, y - 1)) && a.start + a.size + z + x + y <= |d0| < WORD
    ensures Reach(p, a, s0, t) && Pair(a, d0, z + 1, x, y, z + x + y, t)
    decreases x + y
  {
    hide Reach, Pair, Chained, Enabled, Do;
    if x + y == 0 {
      t := Chain(p, a, d0, s0, z);
      SecondOp(p, a, d0, z, t);
      Go(p, a, s0, t, BeginOp);
      t := Do(p, a, t, BeginOp);
    } else if x > 0 {
      t := Fill(p, a, d0, s0, z, x - 1, y);
      t := PairOne(p, a, d0, s0, z + 1, x - 1, y, z + x - 1 + y, false, t);
    } else {
      t := Fill(p, a, d0, s0, z, x, y - 1);
      t := PairOne(p, a, d0, s0, z + 1, x, y - 1, z + x + y - 1, true, t);
    }
  }

  // ---- panics ----

  /** The policies and log areas under which log_write's guards never fire. */
  predicate Silent(b: Budget, a: Area) {
    match b
    case NoBudget => false
    case Calls(n) => n == 0 || (n <= MAXOPBLOCKS && a.size > MAXOPBLOCKS + 2 * n)
    case Blocks(n) => if n == 0 then a.size > 1 else n < MAXOPBLOCKS && a.size > MAXOPBLOCKS + 2 * n + 1
  }

  /** Under a silent policy every call finds room. */
  lemma CallsPass(p: Policy, a: Area, d0: Disk, s: State, op: nat)
    requires Silent(p.budget, a) && Inv(p, a, d0, s) && Enabled(p, a, s, LogCheck(op))
    ensures Do(p, a, s, LogCheck(op)).phase != Panicked
  {
    hide Spare, Stored, Listed;
    assert UseOk(p, s, op);
    if !Nothing(p, a) {
      SpareOf(p, a, s, op);
    }
  }

  lemma NoPanicStep(p: Policy, a: Area, d0: Disk, s: State, step: Step)
    requires Silent(p.budget, a) && Inv(p, a, d0, s) && Enabled(p, a, s, step) && s.phase != Panicked
    ensures Do(p, a, s, step).phase != Panicked
  {
    hide Room, Stored, Listed, Append, OpsOf;
    if step.LogCheck? {
      CallsPass(p, a, d0, s, step.op);
    }
  }

  lemma {:induction false} NoPanic(p: Policy, a: Area, d0: Disk, s: State, steps: seq<Step>, t: State)
    requires Silent(p.budget, a) && Safe(p, a) && Inv(p, a, d0, s) && OnePlace(s) && s.phase != Panicked && Runs(p, a, s, steps, t)
    ensures t.phase != Panicked
    decreases |steps|
  {
    hide Inv, OnePlace, Enabled, Do, Silent, Safe;
    if steps != [] {
      NextIsNew(s);
      StepKeeps(p, a, d0, s, steps[0]);
      InvQuiet(p, a, d0, s);
      OnePlaceKept(p, a, s, steps[0]);
      NoPanicStep(p, a, d0, s, steps[0]);
      NoPanic(p, a, d0, Do(p, a, s, steps[0]), steps[1..], t);
    }
  }

  lemma SilentIsSafe(p: Policy, a: Area)
    requires Silent(p.budget, a)
    ensures Safe(p, a)
  {
  }

  /** The list is full and another call comes. */
  lemma FullPanics(p: Policy, a: Area, d0: Disk, s0: State, c: nat, x: nat, y: nat, t: State)
    requires 0 < a.size && Reach(p, a, s0, t) && Pair(a, d0, c, x, y, Cap(a), t) && (p.budget.Calls? ==> x < p.budget.n)
    ensures exists u :: Reach(p, a, s0, u) && u.phase == Panicked
  {
    hide Reach;
    Go(p, a, s0, t, LogCheck(0));
  }

  lemma SomePanics(p: Policy, a: Area, d0: Disk, s0: State)
    requires Init(a, d0, s0) && !Silent(p.budget, a) && a.start + a.size + LOGSIZE <= |d0| < WORD
    ensures exists u :: Reach(p, a, s0, u) && u.phase == Panicked
  {
    hide Reach, Pair, Init;
    InitFits(a, d0, s0);
    var k := Cap(a);
    var m := if p.budget.NoBudget? then 2 * MAXOPBLOCKS else p.budget.n;
    var z := if k < MAXOPBLOCKS then k else MAXOPBLOCKS;
    var y := if k - z < m then k - z else m;
    var t := Fill(p, a, d0, s0, z, k - z - y, y);
    FullPanics(p, a, d0, s0, z + 1, k - z - y, y, t);
  }

  lemma InitFits(a: Area, d0: Disk, s0: State)
    requires Init(a, d0, s0)
    ensures 0 < a.size
  {
  }

  /** No run of the kernel panics in log_write if and only if the policy is silent. */
  lemma GuardsExactly(p: Policy, a: Area, d0: Disk, s0: State)
    requires Init(a, d0, s0) && a.start + a.size + LOGSIZE <= |d0| < WORD
    ensures (forall t :: Reach(p, a, s0, t) ==> t.phase != Panicked) <==> Silent(p.budget, a)
  {
    if Silent(p.budget, a) {
      SilentIsSafe(p, a);
      InitInv(p, a, d0, s0);
      NothingAtFirst(a, d0, s0);
      forall t | Reach(p, a, s0, t) ensures t.phase != Panicked {
        var steps :| Runs(p, a, s0, steps, t);
        NoPanic(p, a, d0, s0, steps, t);
      }
    } else {
      SomePanics(p, a, d0, s0);
    }
  }

  // ---- the log runs over ----

  /** Two operations passed the guards together and both listed a block. */
  ghost predicate Over(a: Area, d0: Disk, c: nat, k: nat, data: Block, t: State) {
    && Listing(a, d0, k, t) && t.outstanding == 2 && c != 0 && t.ops.Keys == {0, c} && k > 0
    && a.start + a.size + k <= |d0| && t.store[a.start + a.size + k - 1] == data
  }

  lemma BothPass(p: Policy, a: Area, d0: Disk, s0: State, c: nat, x: nat, y: nat, k: nat, data: Block, t: State) returns (t': State)
    requires Reach(p, a, s0, t) && Pair(a, d0, c, x, y, k, t) && k < Cap(a) && !p.alone && Allows(p.budget, x) && Allows(p.budget, y)
    requires a.start + a.size + k + 2 <= |d0| < WORD
    ensures Reach(p, a, s0, t') && Over(a, d0, c, k + 2, data, t')
  {
    hide Reach, OpsOf, Word, Head, PutHead, ZeroBlock;
    var bn := a.start + a.size + k;
    var t1 := Do(p, a, t, LogCheck(0));
    Go(p, a, s0, t, LogCheck(0));
    var t2 := Do(p, a, t1, LogCheck(c));
    Go(p, a, s0, t1, LogCheck(c));
    AddSize(t2.ops[0].blocks, bn);
    var t3 := Do(p, a, t2, LogAppend(0, bn, ZeroBlock()));
    Go(p, a, s0, t2, LogAppend(0, bn, ZeroBlock()));
    RangeMore(a.start + a.size, k);
    AddSize(t3.ops[c].blocks, bn + 1);
    t' := Do(p, a, t3, LogAppend(c, bn + 1, data));
    Go(p, a, s0, t3, LogAppend(c, bn + 1, data));
    RangeMore(a.start + a.size, k + 1);
    assert t'.passed == {};
    assert t'.ops.Keys == t.ops.Keys;
  }

  /** write_log has filled k slots, running on behind the log area if the list is that long. */
  ghost predicate Writing(a: Area, d0: Disk, n: nat, k: nat, t: State) {
    && t.phase == Filling(k) && k <= n && t.groups == [] && t.lh == Range(a.start + a.size, n) && |t.disk| == |d0| == |t.store|
    && a.start + a.size + n <= |d0| && k <= a.size && a.start + a.size < |d0| && t.disk[a.start] == d0[a.start]
    && (k > 0 ==> t.disk[a.start + k] == t.store[t.lh[k - 1]])
  }

  lemma BothEnd(p: Policy, a: Area, d0: Disk, s0: State, c: nat, k: nat, data: Block, t: State) returns (t': State)
    requires Reach(p, a, s0, t) && Over(a, d0, c, k, data, t)
    ensures Reach(p, a, s0, t') && Writing(a, d0, k, 0, t') && t'.store[a.start + a.size + k - 1] == data
  {
    hide Reach;
    var t1 := Do(p, a, t, EndOp(0));
    Go(p, a, s0, t, EndOp(0));
    t' := Do(p, a, t1, EndOp(c));
    Go(p, a, s0, t1, EndOp(c));
  }

  lemma {:induction false} WriteSlots(p: Policy, a: Area, d0: Disk, s0: State, n: nat, k: nat, t: State) returns (t': State)
    requires Reach(p, a, s0, t) && Writing(a, d0, n, 0, t) && k <= n <= a.size
    ensures Reach(p, a, s0, t') && Writing(a, d0, n, k, t') && t'.store == t.store
    decreases k
  {
    hide Reach;
    if k == 0 {
      t' := t;
    } else {
      var u := WriteSlots(p, a, d0, s0, n, k - 1, t);
      t' := Do(p, a, u, FillSlot);
      Go(p, a, s0, u, FillSlot);
    }
  }

  /** Contents other than b. */
  function Other(b: Block): (r: Block)
    ensures r != b
  {
    var x: int := b[0];
    assert b[0 := if x == 0 then 1 else 0][0] != b[0];
    b[0 := if x == 0 then 1 else 0]
  }

  /** The last slot written was the block behind the log area, with the header still empty. */
  lemma Overrun(a: Area, d0: Disk, t: State)
    requires a.Fits(d0) && Word(d0[a.start], 0) == 0 && Writing(a, d0, a.size, a.size, t)
    requires a.start + a.size < |d0| && t.store[a.start + a.size + a.size - 1] == Other(d0[a.start + a.size])
    ensures Sound(a, t.disk) && !SameHome(a, Recover(a, t.disk), Replay(d0, Flatten(t.groups))) && t.phase != Panicked && t.groups == []
  {
    EmptyLogMeansHome(a, t.disk);
    var b := a.start + a.size;
    assert t.disk[b] != d0[b] && !a.Contains(b);
  }

  lemma OpenSize(a: Area, d0: Disk, c: nat, k: nat, data: Block, t: State)
    requires Over(a, d0, c, k, data, t)
    ensures |t.lh| == k
  {
  }

  /** Whatever is not safe goes wrong in some run: the list outgrows lh.block, or write_log runs over
      the block behind the log area before anything is committed. */
  lemma SomeOverrun(p: Policy, a: Area, d0: Disk, s0: State) returns (t: State)
    requires Init(a, d0, s0) && !Safe(p, a) && a.start + a.size + LOGSIZE + 1 <= |d0| < WORD
    ensures Reach(p, a, s0, t) && !LogSafe(a, d0, t)
    ensures a.size <= LOGSIZE ==>
              Sound(a, t.disk) && !SameHome(a, Recover(a, t.disk), Replay(d0, Flatten(t.groups))) && t.phase != Panicked && t.groups == []
  {
    hide Reach, Pair, Over, Writing, Recover, Replay;
    var m := if p.budget.NoBudget? then 2 * MAXOPBLOCKS else p.budget.n;
    var k := if LOGSIZE - 1 < a.size - 2 then LOGSIZE - 1 else a.size - 2;
    var z := if k < MAXOPBLOCKS then k else MAXOPBLOCKS;
    var y := if k - z < m - 1 then k - z else m - 1;
    t := Fill(p, a, d0, s0, z, k - z - y, y);
    var data := Other(d0[a.start + a.size]);
    t := BothPass(p, a, d0, s0, z + 1, k - z - y, y, k, data, t);
    OpenSize(a, d0, z + 1, k + 2, data, t);
    if a.size <= LOGSIZE {
      t := BothEnd(p, a, d0, s0, z + 1, k + 2, data, t);
      t := WriteSlots(p, a, d0, s0, k + 2, k + 2, t);
      Overrun(a, d0, t);
    }
  }

  /** Every run is crash safe if and only if the policy is safe for the log area. */
  lemma CrashSafeExactly(p: Policy, a: Area, d0: Disk, s0: State)
    requires Init(a, d0, s0) && a.start + a.size + LOGSIZE + 1 <= |d0| < WORD
    ensures (forall t :: Reach(p, a, s0, t) ==> LogSafe(a, d0, t)) <==> Safe(p, a)
  {
    hide LogSafe, Init;
    if Safe(p, a) {
      forall t | Reach(p, a, s0, t) ensures LogSafe(a, d0, t) {
        var steps :| Runs(p, a, s0, steps, t);
        CrashSafety(p, a, d0, s0, steps, t);
      }
    } else {
      var u := SomeOverrun(p, a, d0, s0);
    }
  }

  // ---- the layout mkfs builds, and the operations the kernel runs ----

  /** With mkfs's LOGSIZE blocks for header and slots, operations of MAXOPBLOCKS calls each can write
      over the first inode block before anything is committed. */
  lemma MkfsLogOverruns(a: Area, d0: Disk, s0: State) returns (t: State)
    requires Init(a, d0, s0) && a.size == LOGSIZE && a.start + a.size + LOGSIZE + 1 <= |d0| < WORD
    ensures Reach(Policy(Calls(MAXOPBLOCKS), false), a, s0, t)
    ensures t.groups == [] && t.phase != Panicked && Sound(a, t.disk) && !SameHome(a, Recover(a, t.disk), d0)
  {
    hide Reach;
    t := SomeOverrun(Policy(Calls(MAXOPBLOCKS), false), a, d0, s0);
  }

  /** Even in a large log area, operations of MAXOPBLOCKS distinct blocks panic once the list is full
      and one of them logs a listed block again, although no run loses anything. */
  lemma RepeatsPanic(a: Area, d0: Disk, s0: State)
    requires Init(a, d0, s0) && a.size > LOGSIZE && a.start + a.size + LOGSIZE + 1 <= |d0| < WORD
    ensures exists t :: Reach(Policy(Blocks(MAXOPBLOCKS), false), a, s0, t) && t.phase == Panicked
    ensures forall t :: Reach(Policy(Blocks(MAXOPBLOCKS), false), a, s0, t) ==> LogSafe(a, d0, t)
  {
    SomePanics(Policy(Blocks(MAXOPBLOCKS), false), a, d0, s0);
    CrashSafeExactly(Policy(Blocks(MAXOPBLOCKS), false), a, d0, s0);
  }

  /** Even operations that keep to their MAXOPBLOCKS calls can start a commit of as many blocks as the cache has
      buffers, all of them pinned: the commit that then finds no buffer for a log block. */
  lemma EveryBufferPinned(a: Area, d0: Disk, s0: State) returns (t: State)
    requires Init(a, d0, s0) && a.size > LOGSIZE && a.start + a.size + LOGSIZE <= |d0| < WORD
    ensures Reach(Policy(Calls(MAXOPBLOCKS), true), a, s0, t) && t.phase == Filling(0) && |t.lh| == BufferCache.NBUF
  {
    hide Reach;
    var p := Policy(Calls(MAXOPBLOCKS), true);
    t := Fill(p, a, d0, s0, MAXOPBLOCKS, MAXOPBLOCKS, MAXOPBLOCKS);
    t := BothEnd(p, a, d0, s0, MAXOPBLOCKS + 1, LOGSIZE, t.store[a.start + a.size + LOGSIZE - 1], t);
  }

  /** Operations larger than MAXOPBLOCKS break the log whatever its size: some run panics, and some
      run lists more blocks than lh.block holds. */
  lemma LargeOperationsBreak(n: nat, a: Area, d0: Disk, s0: State)
    requires Init(a, d0, s0) && n > MAXOPBLOCKS && a.size > LOGSIZE && a.start + a.size + LOGSIZE + 1 <= |d0| < WORD
    ensures exists t :: Reach(Policy(Blocks(n), false), a, s0, t) && t.phase == Panicked
    ensures exists t :: Reach(Policy(Blocks(n), false), a, s0, t) && |t.lh| > LOGSIZE
  {
    hide Reach;
    SomePanics(Policy(Blocks(n), false), a, d0, s0);
    var t := LongList(n, a, d0, s0);
  }

  lemma LongList(n: nat, a: Area, d0: Disk, s0: State) returns (t: State)
    requires Init(a, d0, s0) && n > MAXOPBLOCKS && a.size > LOGSIZE && a.start + a.size + LOGSIZE + 1 <= |d0| < WORD
    ensures Reach(Policy(Blocks(n), false), a, s0, t) && |t.lh| > LOGSIZE
  {
    hide Reach, Pair, Over;
    var p := Policy(Blocks(n), false);
    t := Fill(p, a, d0, s0, MAXOPBLOCKS, MAXOPBLOCKS - 1, MAXOPBLOCKS);
    t := BothPass(p, a, d0, s0, MAXOPBLOCKS + 1, MAXOPBLOCKS - 1, MAXOPBLOCKS, LOGSIZE - 1, ZeroBlock(), t);
    OpenSize(a, d0, MAXOPBLOCKS + 1, LOGSIZE + 1, ZeroBlock(), t);
  }
}
