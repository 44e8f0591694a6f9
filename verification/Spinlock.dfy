/**
Spinlocks and the interrupt-disable counter of spinlock.c, as a machine whose
steps are single memory accesses of any number of CPUs over any number of locks.
*/
module Spinlock {
  /** lk->cpu holding no CPU. */
  const NOBODY: int := -1

  datatype Lock = Lock(locked: bool, cpu: int)

  /** Where a CPU stands inside acquire and release. */
  datatype Pc =
    | Running
    | AcqRead(l: nat)    // holding() reads lk->locked
    | AcqCmp(l: nat)     // holding() reads lk->cpu
    | Spin(l: nat)       // the xchg loop
    | Record(l: nat)     // about to set lk->cpu
    | RelRead(l: nat)
    | RelCmp(l: nat)
    | Clear(l: nat)      // about to reset lk->cpu
    | Unlock(l: nat)     // about to xchg 0
    | Pop                // about to popcli
    | Panicked

  /** held: the locks acquired and not yet given up; direct: pushcli calls made outside a lock. */
  datatype Cpu = Cpu(pc: Pc, flag: bool, ncli: int, intena: bool, held: set<nat>, direct: nat)

  datatype State = State(cpus: seq<Cpu>, locks: seq<Lock>)

  datatype Op = Acquire(l: nat) | Release(l: nat) | Pushcli | Popcli | SetFlag(b: bool) | Go

  datatype Step = Step(c: nat, op: Op)

  function Push(u: Cpu): (r: Cpu) {
    u.(flag := false, ncli := u.ncli + 1, intena := if u.ncli == 0 then u.flag else u.intena)
  }

  function PopTo(u: Cpu): (r: Cpu) {
    if u.flag then u.(pc := Panicked)
    else if u.ncli - 1 < 0 then u.(pc := Panicked, ncli := u.ncli - 1)
    else u.(pc := Running, ncli := u.ncli - 1, flag := u.ncli == 1 && u.intena)
  }

  /** A matched popcli, and interrupt changes only while no pushcli is open. */
  predicate Enabled(s: State, t: Step) {
    && t.c < |s.cpus|
    && var u := s.cpus[t.c];
       match t.op
       case Acquire(l) => u.pc == Running && l < |s.locks|
       case Release(l) => u.pc == Running && l < |s.locks|
       case Pushcli => u.pc == Running
       case Popcli => u.pc == Running && u.direct > 0
       case SetFlag(_) => u.pc == Running && u.ncli == 0
       case Go => u.pc != Running && u.pc != Panicked && Inside(s, u.pc)
  }

  predicate Inside(s: State, pc: Pc) {
    match pc
    case Running => true
    case Pop => true
    case Panicked => true
    case AcqRead(l) => l < |s.locks|
    case AcqCmp(l) => l < |s.locks|
    case Spin(l) => l < |s.locks|
    case Record(l) => l < |s.locks|
    case RelRead(l) => l < |s.locks|
    case RelCmp(l) => l < |s.locks|
    case Clear(l) => l < |s.locks|
    case Unlock(l) => l < |s.locks|
  }

  function Put(s: State, c: nat, u: Cpu): (r: State)
    requires c < |s.cpus|
  {
    State(s.cpus[c := u], s.locks)
  }

  function PutLock(s: State, c: nat, u: Cpu, l: nat, k: Lock): (r: State)
    requires c < |s.cpus| && l < |s.locks|
  {
    State(s.cpus[c := u], s.locks[l := k])
  }

  function Do(s: State, t: Step): (r: State)
    requires Enabled(s, t)
  {
    var u := s.cpus[t.c];
    match t.op
    case Acquire(l) => Put(s, t.c, Push(u).(pc := AcqRead(l)))
    case Release(l) => Put(s, t.c, u.(pc := RelRead(l)))
    case Pushcli => Put(s, t.c, Push(u).(direct := u.direct + 1))
    case Popcli => Put(s, t.c, PopTo(u).(direct := u.direct - 1))
    case SetFlag(b) => Put(s, t.c, u.(flag := b))
    case Go => Advance(s, t.c)
  }

  /** The next memory access of a CPU inside acquire or release. */
  function Advance(s: State, c: nat): (r: State)
    requires Enabled(s, Step(c, Go))
  {
    var u := s.cpus[c];
    match u.pc
    case Running => s
    case Panicked => s
    case AcqRead(l) => Put(s, c, u.(pc := if s.locks[l].locked then AcqCmp(l) else Spin(l)))
    case AcqCmp(l) => Put(s, c, u.(pc := if s.locks[l].cpu == c then Panicked else Spin(l)))
    case Spin(l) => PutLock(s, c, u.(pc := if s.locks[l].locked then Spin(l) else Record(l)), l, s.locks[l].(locked := true))
    case Record(l) => PutLock(s, c, u.(pc := Running, held := u.held + {l}), l, s.locks[l].(cpu := c))
    case RelRead(l) => Put(s, c, u.(pc := if s.locks[l].locked then RelCmp(l) else Panicked))
    case RelCmp(l) => Put(s, c, u.(pc := if s.locks[l].cpu == c then Clear(l) else Panicked))
    case Clear(l) => PutLock(s, c, u.(pc := Unlock(l), held := u.held - {l}), l, s.locks[l].(cpu := NOBODY))
    case Unlock(l) => PutLock(s, c, u.(pc := Pop), l, s.locks[l].(locked := false))
    case Pop => Put(s, c, PopTo(u))
  }

  ghost predicate Init(s: State) {
    && (forall c :: 0 <= c < |s.cpus| ==> s.cpus[c].pc == Running && s.cpus[c].ncli == 0 && s.cpus[c].held == {} && s.cpus[c].direct == 0)
    && (forall l :: 0 <= l < |s.locks| ==> s.locks[l] == Lock(false, NOBODY))
  }

  ghost predicate Runs(run: seq<State>, steps: seq<Step>) {
    && |run| == |steps| + 1 && Init(run[0])
    && forall i :: 0 <= i < |steps| ==> Enabled(run[i], steps[i]) && run[i + 1] == Do(run[i], steps[i])
  }

  // ---- the invariant ----

  /** The CPU is between the winning xchg and the releasing xchg. */
  predicate Owns(u: Cpu, l: nat) {
    l in u.held || u.pc == Record(l) || u.pc == Unlock(l)
  }

  /** One pushcli is open for the acquire or release in progress. */
  function Open(pc: Pc): (n: nat) {
    if pc.AcqRead? || pc.AcqCmp? || pc.Spin? || pc.Record? || pc.Unlock? || pc.Pop? then 1 else 0
  }

  ghost predicate CpuOk(u: Cpu) {
    && (u.pc != Panicked ==> u.ncli == |u.held| + u.direct + Open(u.pc) && (u.ncli > 0 ==> !u.flag))
    && (u.pc.Spin? || u.pc.Record? || u.pc.Unlock? ==> u.pc.l !in u.held)
    && (u.pc.Clear? ==> u.pc.l in u.held)
  }

  /** locked tells whether a CPU owns the lock, and cpu which one has it in hand. */
  ghost predicate LockOk(s: State, l: nat)
    requires l < |s.locks|
  {
    && (forall c :: 0 <= c < |s.cpus| && Owns(s.cpus[c], l) ==> s.locks[l].locked)
    && (s.locks[l].locked ==> exists c :: 0 <= c < |s.cpus| && Owns(s.cpus[c], l))
    && (forall c, d :: 0 <= c < |s.cpus| && 0 <= d < |s.cpus| && Owns(s.cpus[c], l) && Owns(s.cpus[d], l) ==> c == d)
    && (forall c :: 0 <= c < |s.cpus| ==> (s.locks[l].cpu == c <==> l in s.cpus[c].held))
  }

  ghost predicate Inv(s: State) {
    && (forall c :: 0 <= c < |s.cpus| ==> CpuOk(s.cpus[c]) && Inside(s, s.cpus[c].pc))
    && (forall l :: 0 <= l < |s.locks| ==> LockOk(s, l))
  }

  lemma LocalKeeps(s: State, c: nat, u: Cpu)
    requires Inv(s) && c < |s.cpus| && CpuOk(u) && Inside(s, u.pc) && u.held == s.cpus[c].held
    requires forall l :: Owns(u, l) <==> Owns(s.cpus[c], l)
    ensures Inv(Put(s, c, u))
  {
    var s' := Put(s, c, u);
    forall l | 0 <= l < |s.locks| ensures LockOk(s', l) {
      assert LockOk(s, l);
      if s.locks[l].locked {
        var d :| 0 <= d < |s.cpus| && Owns(s.cpus[d], l);
        assert Owns(s'.cpus[d], l);
      }
    }
  }

  /** A step on lock l leaves every other lock as it is. */
  lemma OtherLocks(s: State, c: nat, u: Cpu, l: nat, k: Lock)
    requires Inv(s) && c < |s.cpus| && l < |s.locks| && CpuOk(u) && Inside(s, u.pc)
    requires forall m :: m != l ==> (Owns(u, m) <==> Owns(s.cpus[c], m)) && (m in u.held <==> m in s.cpus[c].held)
    requires LockOk(PutLock(s, c, u, l, k), l)
    ensures Inv(PutLock(s, c, u, l, k))
  {
    var s' := PutLock(s, c, u, l, k);
    forall m | 0 <= m < |s.locks| ensures LockOk(s', m) {
      if m != l {
        assert LockOk(s, m);
        if s.locks[m].locked {
          var d :| 0 <= d < |s.cpus| && Owns(s.cpus[d], m);
          assert Owns(s'.cpus[d], m);
        }
      }
    }
  }

  /** The xchg that finds the lock free makes this CPU its only owner. */
  lemma XchgKeeps(s: State, c: nat)
    requires Inv(s) && c < |s.cpus| && s.cpus[c].pc.Spin?
    ensures Inv(Advance(s, c))
  {
    hide Open;
    var u := s.cpus[c];
    var l := u.pc.l;
    assert LockOk(s, l);
    if s.locks[l].locked {
      assert Advance(s, c) == s;
    } else {
      var v := u.(pc := Record(l));
      OpenSame(u.pc, v.pc);
      assert Owns(v, l);
      assert Owns(PutLock(s, c, v, l, s.locks[l].(locked := true)).cpus[c], l);
      OtherLocks(s, c, v, l, s.locks[l].(locked := true));
    }
  }

  lemma OpenSame(p: Pc, q: Pc)
    requires (p.Spin? && q.Record?) || (p.Unlock? && q.Pop?)
    ensures Open(p) == Open(q) == 1
  {
  }

  lemma RecordKeeps(s: State, c: nat)
    requires Inv(s) && c < |s.cpus| && s.cpus[c].pc.Record?
    ensures Inv(Advance(s, c))
  {
    var u := s.cpus[c];
    var l := u.pc.l;
    var v := u.(pc := Running, held := u.held + {l});
    assert LockOk(s, l) && Owns(u, l) && Owns(v, l);
    assert Owns(PutLock(s, c, v, l, s.locks[l].(cpu := c)).cpus[c], l);
    OtherLocks(s, c, v, l, s.locks[l].(cpu := c));
  }

  lemma ClearKeeps(s: State, c: nat)
    requires Inv(s) && c < |s.cpus| && s.cpus[c].pc.Clear?
    ensures Inv(Advance(s, c))
  {
    var u := s.cpus[c];
    var l := u.pc.l;
    var v := u.(pc := Unlock(l), held := u.held - {l});
    assert LockOk(s, l) && Owns(u, l) && Owns(v, l);
    assert Owns(PutLock(s, c, v, l, s.locks[l].(cpu := NOBODY)).cpus[c], l);
    OtherLocks(s, c, v, l, s.locks[l].(cpu := NOBODY));
  }

  lemma UnlockKeeps(s: State, c: nat)
    requires Inv(s) && c < |s.cpus| && s.cpus[c].pc.Unlock?
    ensures Inv(Advance(s, c))
  {
    var u := s.cpus[c];
    var l := u.pc.l;
    var v := u.(pc := Pop);
    assert LockOk(s, l) && Owns(u, l) && !Owns(v, l);
    OtherLocks(s, c, v, l, s.locks[l].(locked := false));
  }

  /** The two reads of holding() answer whether the CPU has the lock, however others interleave. */
  lemma HoldingExact(s: State, c: nat)
    requires Inv(s) && c < |s.cpus|
    ensures s.cpus[c].pc.AcqCmp? || s.cpus[c].pc.RelCmp? ==>
              (s.locks[s.cpus[c].pc.l].cpu == c <==> s.cpus[c].pc.l in s.cpus[c].held)
    ensures s.cpus[c].pc.AcqRead? || s.cpus[c].pc.RelRead? ==>
              (!s.locks[s.cpus[c].pc.l].locked ==> s.cpus[c].pc.l !in s.cpus[c].held)
  {
    var pc := s.cpus[c].pc;
    if pc.AcqCmp? || pc.RelCmp? || pc.AcqRead? || pc.RelRead? {
      assert LockOk(s, pc.l);
      assert pc.l in s.cpus[c].held ==> Owns(s.cpus[c], pc.l);
    }
  }

  lemma ReadKeeps(s: State, c: nat)
    requires Inv(s) && c < |s.cpus|
    requires s.cpus[c].pc.AcqRead? || s.cpus[c].pc.AcqCmp? || s.cpus[c].pc.RelRead? || s.cpus[c].pc.RelCmp? || s.cpus[c].pc.Pop?
    ensures Inv(Advance(s, c))
  {
    HoldingExact(s, c);
    LocalKeeps(s, c, Advance(s, c).cpus[c]);
  }

  lemma StepKeeps(s: State, t: Step)
    requires Inv(s) && Enabled(s, t)
    ensures Inv(Do(s, t))
  {
    var u := s.cpus[t.c];
    if t.op != Go {
      LocalKeeps(s, t.c, Do(s, t).cpus[t.c]);
    } else if u.pc.Spin? {
      XchgKeeps(s, t.c);
    } else if u.pc.Record? {
      RecordKeeps(s, t.c);
    } else if u.pc.Clear? {
      ClearKeeps(s, t.c);
    } else if u.pc.Unlock? {
      UnlockKeeps(s, t.c);
    } else {
      ReadKeeps(s, t.c);
    }
  }

  lemma {:induction false} RunKeeps(run: seq<State>, steps: seq<Step>, i: nat)
    requires Runs(run, steps) && i < |run|
    ensures Inv(run[i]) && |run[i].cpus| == |run[0].cpus| && |run[i].locks| == |run[0].locks|
  {
    if i > 0 {
      RunKeeps(run, steps, i - 1);
      StepKeeps(run[i - 1], steps[i - 1]);
    }
  }

  // ---- what every run keeps ----

  /** Between acquire's return and release's call no other CPU is in the same section, the
      interrupts of the CPU are off, and holding answers yes there and nowhere else. */
  lemma MutualExclusion(run: seq<State>, steps: seq<Step>, i: nat, c: nat, l: nat)
    requires Runs(run, steps) && i < |run| && c < |run[i].cpus| && l < |run[i].locks| && l in run[i].cpus[c].held
    ensures forall d :: 0 <= d < |run[i].cpus| && d != c ==> !Owns(run[i].cpus[d], l)
    ensures run[i].locks[l] == Lock(true, c)
    ensures run[i].cpus[c].pc != Panicked ==> run[i].cpus[c].ncli > 0 && !run[i].cpus[c].flag
  {
    RunKeeps(run, steps, i);
    assert LockOk(run[i], l) && Owns(run[i].cpus[c], l) && CpuOk(run[i].cpus[c]);
    assert run[i].cpus[c].held != {};
  }

  /** acquire panics exactly on a lock the CPU already has, release exactly on one it has not;
      a matched popcli never panics. */
  lemma PanicsExactly(run: seq<State>, steps: seq<Step>, i: nat)
    requires Runs(run, steps) && i < |steps|
    ensures var u, v := run[i].cpus[steps[i].c], run[i + 1].cpus[steps[i].c];
            && (steps[i].op == Popcli ==> v.pc != Panicked)
            && (steps[i].op == Go && u.pc == Pop ==> v.pc != Panicked)
            && (steps[i].op == Go && u.pc.AcqCmp? ==> (v.pc == Panicked <==> u.pc.l in u.held))
            && (steps[i].op == Go && u.pc.AcqRead? && u.pc.l in u.held ==> v.pc == AcqCmp(u.pc.l))
            && (steps[i].op == Go && u.pc.RelCmp? ==> (v.pc == Panicked <==> u.pc.l !in u.held))
            && (steps[i].op == Go && u.pc.RelRead? && u.pc.l in u.held ==> v.pc == RelCmp(u.pc.l))
            && (v.pc == Panicked ==> steps[i].op == Go && (u.pc.AcqCmp? || u.pc.RelRead? || u.pc.RelCmp?))
  {
    RunKeeps(run, steps, i);
    HoldingExact(run[i], steps[i].c);
    assert CpuOk(run[i].cpus[steps[i].c]);
  }

  /** When a CPU's pushcli depth comes back to zero its interrupt flag is what it was before. */
  lemma Restored(run: seq<State>, steps: seq<Step>, i: nat, j: nat, c: nat)
    requires Runs(run, steps) && i < j < |run| && c < |run[0].cpus|
    requires forall k :: i <= k <= j ==> c < |run[k].cpus|
    requires run[i].cpus[c].ncli == 0 && run[j].cpus[c].ncli == 0 && run[j].cpus[c].pc != Panicked
    requires forall k :: i < k < j ==> run[k].cpus[c].ncli > 0
    requires j > i + 1
    ensures run[j].cpus[c].flag == run[i].cpus[c].flag
  {
    hide LockOk, Inside, Do, Enabled, CpuOk;
    Saved(run, steps, i, j - 1, c);
    RunKeeps(run, steps, j - 1);
    assert Enabled(run[j - 1], steps[j - 1]) && run[j] == Do(run[j - 1], steps[j - 1]);
    ToZero(run[j - 1], steps[j - 1], c);
  }

  lemma ToZero(s: State, t: Step, c: nat)
    requires Enabled(s, t) && c < |s.cpus| && CpuOk(s.cpus[c]) && s.cpus[c].ncli > 0
    ensures Do(s, t).cpus[c].ncli == 0 && Do(s, t).cpus[c].pc != Panicked ==> Do(s, t).cpus[c].flag == s.cpus[c].intena
  {
  }

  lemma {:induction false} Saved(run: seq<State>, steps: seq<Step>, i: nat, k: nat, c: nat)
    requires Runs(run, steps) && i < k < |run|
    requires forall m :: i <= m <= k ==> c < |run[m].cpus|
    requires run[i].cpus[c].ncli == 0 && forall m :: i < m <= k ==> run[m].cpus[c].ncli > 0
    ensures run[k].cpus[c].intena == run[i].cpus[c].flag
  {
    hide Do, Enabled;
    assert Enabled(run[k - 1], steps[k - 1]) && run[k] == Do(run[k - 1], steps[k - 1]);
    Saves(run[k - 1], steps[k - 1], c);
    if k > i + 1 {
      Saved(run, steps, i, k - 1, c);
    }
  }

  lemma Saves(s: State, t: Step, c: nat)
    requires Enabled(s, t) && c < |s.cpus|
    ensures var v := Do(s, t).cpus[c]; v.ncli > 0 ==> v.intena == if s.cpus[c].ncli == 0 then s.cpus[c].flag else s.cpus[c].intena
  {
  }

  // ---- what acquire and release have done when they return ----

  /** Index j is where CPU c, inside a call from index i on, is back in its own code. */
  ghost predicate Back(run: seq<State>, i: nat, j: nat, c: nat) {
    && i < j < |run| && (forall k :: 0 <= k < |run| ==> c < |run[k].cpus|)
    && run[j].cpus[c].pc == Running && forall k :: i < k < j ==> run[k].cpus[c].pc != Running
  }

  /** u is inside acquire(l), called at u0. */
  ghost predicate Acquiring(u0: Cpu, u: Cpu, l: nat) {
    u.pc == Panicked || (u.pc in {AcqRead(l), AcqCmp(l), Spin(l), Record(l)} && u.held == u0.held && u.direct == u0.direct && u.ncli == u0.ncli + 1)
  }

  /** u is inside release(l), called at u0. */
  ghost predicate Releasing(u0: Cpu, u: Cpu, l: nat) {
    || u.pc == Panicked
    || (u.pc in {RelRead(l), RelCmp(l), Clear(l)} && u.held == u0.held && u.direct == u0.direct && u.ncli == u0.ncli)
    || (u.pc in {Unlock(l), Pop} && l in u0.held && u.held == u0.held - {l} && u.direct == u0.direct && u.ncli == u0.ncli)
  }

  lemma StepAcquiring(s: State, t: Step, c: nat, u0: Cpu, l: nat)
    requires Inv(s) && Enabled(s, t) && c < |s.cpus| && Acquiring(u0, s.cpus[c], l)
    ensures var u := Do(s, t).cpus[c];
            if u.pc == Running then u.held == u0.held + {l} && l !in u0.held && u.direct == u0.direct && u.ncli == u0.ncli + 1 else Acquiring(u0, u, l)
  {
    assert CpuOk(s.cpus[c]);
  }

  lemma StepReleasing(s: State, t: Step, c: nat, u0: Cpu, l: nat)
    requires Inv(s) && Enabled(s, t) && c < |s.cpus| && Releasing(u0, s.cpus[c], l)
    ensures var u := Do(s, t).cpus[c];
            if u.pc == Running then l in u0.held && u.held == u0.held - {l} && u.direct == u0.direct && u.ncli == u0.ncli - 1 else Releasing(u0, u, l)
  {
    assert CpuOk(s.cpus[c]);
  }

  lemma {:induction false} StillAcquiring(run: seq<State>, steps: seq<Step>, i: nat, k: nat, c: nat, l: nat)
    requires Runs(run, steps) && i < k < |run| && steps[i] == Step(c, Acquire(l)) && (forall m :: 0 <= m < |run| ==> c < |run[m].cpus|)
    requires forall m :: i < m <= k ==> run[m].cpus[c].pc != Running
    ensures Acquiring(run[i].cpus[c], run[k].cpus[c], l)
  {
    hide Inv, Do, Enabled, Acquiring;
    assert Enabled(run[k - 1], steps[k - 1]) && run[k] == Do(run[k - 1], steps[k - 1]);
    if k == i + 1 {
      Called(run[i], c, l);
    } else {
      StillAcquiring(run, steps, i, k - 1, c, l);
      RunKeeps(run, steps, k - 1);
      StepAcquiring(run[k - 1], steps[k - 1], c, run[i].cpus[c], l);
    }
  }

  lemma Called(s: State, c: nat, l: nat)
    ensures Enabled(s, Step(c, Acquire(l))) ==> Acquiring(s.cpus[c], Do(s, Step(c, Acquire(l))).cpus[c], l)
    ensures Enabled(s, Step(c, Release(l))) ==> Releasing(s.cpus[c], Do(s, Step(c, Release(l))).cpus[c], l)
  {
  }

  lemma {:induction false} StillReleasing(run: seq<State>, steps: seq<Step>, i: nat, k: nat, c: nat, l: nat)
    requires Runs(run, steps) && i < k < |run| && steps[i] == Step(c, Release(l)) && (forall m :: 0 <= m < |run| ==> c < |run[m].cpus|)
    requires forall m :: i < m <= k ==> run[m].cpus[c].pc != Running
    ensures Releasing(run[i].cpus[c], run[k].cpus[c], l)
  {
    hide Inv, Do, Enabled, Releasing;
    assert Enabled(run[k - 1], steps[k - 1]) && run[k] == Do(run[k - 1], steps[k - 1]);
    if k == i + 1 {
      Called(run[i], c, l);
    } else {
      StillReleasing(run, steps, i, k - 1, c, l);
      RunKeeps(run, steps, k - 1);
      StepReleasing(run[k - 1], steps[k - 1], c, run[i].cpus[c], l);
    }
  }

  /** acquire returns, if it does, with the lock: one this CPU did not have and now alone has, with interrupts
      off and one pushcli more. */
  lemma AcquireReturns(run: seq<State>, steps: seq<Step>, i: nat, j: nat, c: nat, l: nat)
    requires Runs(run, steps) && Back(run, i, j, c) && steps[i] == Step(c, Acquire(l))
    ensures l !in run[i].cpus[c].held && run[j].cpus[c].held == run[i].cpus[c].held + {l}
    ensures run[j].cpus[c].ncli == run[i].cpus[c].ncli + 1 && !run[j].cpus[c].flag
    ensures l < |run[j].locks| && run[j].locks[l] == Lock(true, c) && forall d :: 0 <= d < |run[j].cpus| && d != c ==> !Owns(run[j].cpus[d], l)
  {
    hide Inv, Do, Enabled, Acquiring;
    assert Enabled(run[i], steps[i]) && run[i + 1] == Do(run[i], steps[i]);
    Called(run[i], c, l);
    CallTarget(run[i], c, l);
    if j > i + 1 {
      StillAcquiring(run, steps, i, j - 1, c, l);
      RunKeeps(run, steps, j - 1);
      assert Enabled(run[j - 1], steps[j - 1]) && run[j] == Do(run[j - 1], steps[j - 1]);
      StepAcquiring(run[j - 1], steps[j - 1], c, run[i].cpus[c], l);
      RunKeeps(run, steps, i);
      RunKeeps(run, steps, j);
      MutualExclusion(run, steps, j, c, l);
    }
  }

  lemma CallTarget(s: State, c: nat, l: nat)
    ensures Enabled(s, Step(c, Acquire(l))) ==> l < |s.locks| && Do(s, Step(c, Acquire(l))).cpus[c].pc != Running
    ensures Enabled(s, Step(c, Release(l))) ==> l < |s.locks| && Do(s, Step(c, Release(l))).cpus[c].pc != Running
  {
  }

  /** release returns, if it does, without the lock it was called with and with one pushcli less. */
  lemma ReleaseReturns(run: seq<State>, steps: seq<Step>, i: nat, j: nat, c: nat, l: nat)
    requires Runs(run, steps) && Back(run, i, j, c) && steps[i] == Step(c, Release(l))
    ensures l in run[i].cpus[c].held && run[j].cpus[c].held == run[i].cpus[c].held - {l}
    ensures run[j].cpus[c].ncli == run[i].cpus[c].ncli - 1 && !Owns(run[j].cpus[c], l)
  {
    hide Inv, Do, Enabled, Releasing;
    assert Enabled(run[i], steps[i]) && run[i + 1] == Do(run[i], steps[i]);
    Called(run[i], c, l);
    CallTarget(run[i], c, l);
    if j > i + 1 {
      StillReleasing(run, steps, i, j - 1, c, l);
      RunKeeps(run, steps, j - 1);
      assert Enabled(run[j - 1], steps[j - 1]) && run[j] == Do(run[j - 1], steps[j - 1]);
      StepReleasing(run[j - 1], steps[j - 1], c, run[i].cpus[c], l);
    }
  }
}
