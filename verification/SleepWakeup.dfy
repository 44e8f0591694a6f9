/**
sleep and wakeup of proc.c used as their callers use them: a count guarded by a
lock lk, producers that raise it and then call wakeup (before or after giving up
lk), consumers that sleep on it in a loop.  Steps are what one process does
between two points where another may run; lock steps wait until the lock is free.
*/
module SleepWakeup {
  datatype Pc =
    | Out                          // without lk
    | In                           // with lk
    | WantTable                    // in sleep, with lk, acquiring ptable.lock
    | BothLocks                    // in sleep, about to release lk
    | TableOnly                    // in sleep, about to set SLEEPING
    | Marked                       // SLEEPING set, about to enter the scheduler
    | Parked                       // switched out; runs again once runnable
    | Resumed                      // switched in with ptable.lock, about to release it
    | WantLock                     // end of sleep, acquiring lk again
    | CallWakeup(back: bool)       // in wakeup, acquiring ptable.lock; back: with lk
    | Waking(next: nat, back: bool)  // wakeup1's loop

  /** owes: raised the count and has not finished a wakeup since. */
  datatype Proc = Proc(pc: Pc, sleeping: bool, owes: bool)

  datatype State = State(procs: seq<Proc>, value: nat)

  datatype Op = LockLk | UnlockLk | Produce | Consume | Sleep | Wakeup | Go | Interrupted

  datatype Step = Step(p: nat, op: Op)

  predicate HasLk(pc: Pc) {
    pc.In? || pc.WantTable? || pc.BothLocks? || (pc.CallWakeup? && pc.back) || (pc.Waking? && pc.back)
  }

  predicate HasTable(pc: Pc) {
    pc.BothLocks? || pc.TableOnly? || pc.Marked? || pc.Resumed? || pc.Waking?
  }

  ghost predicate LkFree(s: State) {
    forall q :: 0 <= q < |s.procs| ==> !HasLk(s.procs[q].pc)
  }

  ghost predicate TableFree(s: State) {
    forall q :: 0 <= q < |s.procs| ==> !HasTable(s.procs[q].pc)
  }

  /** A process that owes a wakeup makes it before it sleeps. */
  ghost predicate Enabled(s: State, t: Step) {
    && t.p < |s.procs|
    && var x := s.procs[t.p];
       match t.op
       case LockLk => x.pc == Out && LkFree(s)
       case UnlockLk => x.pc == In
       case Produce => x.pc == In
       case Consume => x.pc == In && s.value > 0
       case Sleep => x.pc == In && s.value == 0 && !x.owes
       case Wakeup => x.pc == In || x.pc == Out
       case Go => CanGo(s, x)
       case Interrupted => x.sleeping && TableFree(s)
  }

  ghost predicate CanGo(s: State, x: Proc) {
    match x.pc
    case Out => false
    case In => false
    case WantTable => TableFree(s)
    case CallWakeup(_) => TableFree(s)
    case Parked => !x.sleeping && TableFree(s)
    case WantLock => LkFree(s)
    case BothLocks => true
    case TableOnly => true
    case Marked => true
    case Resumed => true
    case Waking(_, _) => true
  }

  function Put(s: State, p: nat, x: Proc): (r: State)
    requires p < |s.procs|
  {
    State(s.procs[p := x], s.value)
  }

  ghost function Do(s: State, t: Step): (r: State)
    requires Enabled(s, t)
  {
    var x := s.procs[t.p];
    match t.op
    case LockLk => Put(s, t.p, x.(pc := In))
    case UnlockLk => Put(s, t.p, x.(pc := Out))
    case Produce => State(s.procs[t.p := x.(owes := true)], s.value + 1)
    case Consume => State(s.procs, s.value - 1)
    case Sleep => Put(s, t.p, x.(pc := WantTable))
    case Wakeup => Put(s, t.p, x.(pc := CallWakeup(x.pc == In)))
    case Go => Advance(s, t.p)
    case Interrupted => Put(s, t.p, x.(sleeping := false))   // kill, or a wakeup of another channel with the same contents
  }

  ghost function Advance(s: State, p: nat): (r: State)
    requires p < |s.procs| && CanGo(s, s.procs[p])
  {
    var x := s.procs[p];
    match x.pc
    case WantTable => Put(s, p, x.(pc := BothLocks))
    case BothLocks => Put(s, p, x.(pc := TableOnly))
    case TableOnly => Put(s, p, x.(pc := Marked, sleeping := true))
    case Marked => Put(s, p, x.(pc := Parked))
    case Parked => Put(s, p, x.(pc := Resumed))
    case Resumed => Put(s, p, x.(pc := WantLock))
    case WantLock => Put(s, p, x.(pc := In))
    case CallWakeup(back) => Put(s, p, x.(pc := Waking(0, back)))
    case Waking(i, back) =>
      if i < |s.procs| then
        var s' := Put(s, i, s.procs[i].(sleeping := false));
        Put(s', p, s'.procs[p].(pc := Waking(i + 1, back)))
      else
        Put(s, p, x.(pc := if back then In else Out, owes := false))
  }

  ghost predicate Init(s: State) {
    s.value == 0 && forall p :: 0 <= p < |s.procs| ==> s.procs[p] == Proc(Out, false, false)
  }

  ghost predicate Runs(run: seq<State>, steps: seq<Step>) {
    && |run| == |steps| + 1 && Init(run[0])
    && forall i :: 0 <= i < |steps| ==> Enabled(run[i], steps[i]) && run[i + 1] == Do(run[i], steps[i])
  }

  // ---- the invariant ----

  ghost predicate Exclusive(s: State) {
    && (forall p, q :: 0 <= p < |s.procs| && 0 <= q < |s.procs| && HasLk(s.procs[p].pc) && HasLk(s.procs[q].pc) ==> p == q)
    && (forall p, q :: 0 <= p < |s.procs| && 0 <= q < |s.procs| && HasTable(s.procs[p].pc) && HasTable(s.procs[q].pc) ==> p == q)
  }

  /** Inside sleep and not yet woken. */
  predicate GoingToSleep(x: Proc) {
    x.pc.WantTable? || x.pc.BothLocks? || x.pc.TableOnly? || x.sleeping
  }

  /** r still has a wakeup to make that will reach q. */
  predicate WillWake(x: Proc, q: nat) {
    x.owes && (x.pc.Waking? ==> x.pc.next <= q)
  }

  ghost predicate Heard(s: State, q: nat)
    requires q < |s.procs|
  {
    GoingToSleep(s.procs[q]) && s.value > 0 ==> exists r :: 0 <= r < |s.procs| && WillWake(s.procs[r], q)
  }

  ghost predicate Local(x: Proc) {
    && (x.sleeping ==> x.pc.Marked? || x.pc.Parked?)
    && (x.pc.WantTable? || x.pc.BothLocks? || x.pc.TableOnly? || x.pc.Marked? || x.pc.Parked? || x.pc.Resumed? || x.pc.WantLock? ==> !x.owes)
  }

  ghost predicate Inv(s: State) {
    && Exclusive(s)
    && (forall q :: 0 <= q < |s.procs| ==> Local(s.procs[q]) && Heard(s, q))
    && (forall q :: 0 <= q < |s.procs| && (s.procs[q].pc.WantTable? || s.procs[q].pc.BothLocks?) ==> s.value == 0)
  }

  /** A step of p that changes neither a debt nor the count. */
  lemma QuietKeeps(s: State, p: nat, x: Proc)
    requires Inv(s) && p < |s.procs| && Local(x) && Exclusive(Put(s, p, x))
    requires x.owes == s.procs[p].owes && !x.pc.Waking? && !s.procs[p].pc.Waking?
    requires GoingToSleep(x) ==> GoingToSleep(s.procs[p]) || s.value == 0
    requires x.pc.WantTable? || x.pc.BothLocks? ==> s.value == 0
    ensures Inv(Put(s, p, x))
  {
    var s' := Put(s, p, x);
    forall q | 0 <= q < |s.procs| ensures Heard(s', q) {
      assert Heard(s, q);
      if GoingToSleep(s'.procs[q]) && s.value > 0 {
        var r :| 0 <= r < |s.procs| && WillWake(s.procs[r], q);
        assert WillWake(s'.procs[r], q);
      }
    }
  }

  lemma ProduceKeeps(s: State, p: nat)
    requires Inv(s) && p < |s.procs| && s.procs[p].pc == In
    ensures Inv(Do(s, Step(p, Produce)))
  {
    var s' := Do(s, Step(p, Produce));
    forall q | 0 <= q < |s.procs| ensures Heard(s', q) {
      assert WillWake(s'.procs[p], q);
    }
  }

  lemma ConsumeKeeps(s: State, p: nat)
    requires Inv(s) && p < |s.procs| && s.procs[p].pc == In && s.value > 0
    ensures Inv(Do(s, Step(p, Consume)))
  {
    var s' := Do(s, Step(p, Consume));
    forall q | 0 <= q < |s.procs| ensures Heard(s', q) {
      assert Heard(s, q);
    }
  }

  /** Entering wakeup1's loop: every sleeper is still ahead. */
  lemma EnterKeeps(s: State, p: nat)
    requires Inv(s) && p < |s.procs| && s.procs[p].pc.CallWakeup? && TableFree(s)
    ensures Inv(Advance(s, p))
  {
    var s' := Advance(s, p);
    forall q | 0 <= q < |s.procs| ensures Heard(s', q) {
      assert Heard(s, q);
      if GoingToSleep(s'.procs[q]) && s.value > 0 {
        var r :| 0 <= r < |s.procs| && WillWake(s.procs[r], q);
        assert WillWake(s'.procs[r], q);
      }
    }
  }

  /** One turn of the loop: the process it passes is not asleep afterwards, nor on its way with the
      table lock, nor with lk while the count is positive. */
  lemma TurnKeeps(s: State, p: nat)
    requires Inv(s) && p < |s.procs| && s.procs[p].pc.Waking? && s.procs[p].pc.next < |s.procs|
    ensures Inv(Advance(s, p))
  {
    var s' := Advance(s, p);
    var i := s.procs[p].pc.next;
    assert forall q :: 0 <= q < |s.procs| ==> HasLk(s'.procs[q].pc) == HasLk(s.procs[q].pc) && HasTable(s'.procs[q].pc) == HasTable(s.procs[q].pc);
    forall q | 0 <= q < |s.procs| ensures Heard(s', q) && Local(s'.procs[q]) {
      assert Heard(s, q) && Local(s.procs[q]);
      if GoingToSleep(s'.procs[q]) && s.value > 0 {
        assert q != i;
        var r :| 0 <= r < |s.procs| && WillWake(s.procs[r], q);
        assert WillWake(s'.procs[r], q);
      }
    }
  }

  /** Leaving the loop: whoever it left asleep has another wakeup coming. */
  lemma LeaveKeeps(s: State, p: nat)
    requires Inv(s) && p < |s.procs| && s.procs[p].pc.Waking? && s.procs[p].pc.next >= |s.procs|
    ensures Inv(Advance(s, p))
  {
    var s' := Advance(s, p);
    assert forall q :: 0 <= q < |s.procs| ==> HasLk(s'.procs[q].pc) == HasLk(s.procs[q].pc) && (HasTable(s'.procs[q].pc) ==> HasTable(s.procs[q].pc));
    forall q | 0 <= q < |s.procs| ensures Heard(s', q) {
      assert Heard(s, q);
      if GoingToSleep(s'.procs[q]) && s.value > 0 {
        var r :| 0 <= r < |s.procs| && WillWake(s.procs[r], q);
        assert r != p;
        assert WillWake(s'.procs[r], q);
      }
    }
  }

  lemma QuietStep(s: State, t: Step)
    requires Inv(s) && Enabled(s, t) && !t.op.Produce? && !t.op.Consume? && !(t.op.Go? && (s.procs[t.p].pc.Waking? || s.procs[t.p].pc.CallWakeup?))
    ensures Inv(Do(s, t))
  {
    assert Local(s.procs[t.p]) && Heard(s, t.p);
    QuietKeeps(s, t.p, Do(s, t).procs[t.p]);
  }

  lemma StepKeeps(s: State, t: Step)
    requires Inv(s) && Enabled(s, t)
    ensures Inv(Do(s, t)) && |Do(s, t).procs| == |s.procs|
  {
    match t.op
    case Produce => ProduceKeeps(s, t.p);
    case Consume => ConsumeKeeps(s, t.p);
    case Go =>
      var pc := s.procs[t.p].pc;
      if pc.Waking? {
        if pc.next < |s.procs| { TurnKeeps(s, t.p); } else { LeaveKeeps(s, t.p); }
      } else if pc.CallWakeup? {
        EnterKeeps(s, t.p);
      } else {
        QuietStep(s, t);
      }
    case _ => QuietStep(s, t);
  }

  lemma {:induction false} RunKeeps(run: seq<State>, steps: seq<Step>, i: nat)
    requires Runs(run, steps) && i < |run|
    ensures Inv(run[i]) && |run[i].procs| == |run[0].procs|
  {
    if i > 0 {
      RunKeeps(run, steps, i - 1);
      StepKeeps(run[i - 1], steps[i - 1]);
    }
  }

  // ---- what every run keeps ----

  /** No wakeup is lost: whenever a process is asleep, or has released lk on its way to sleep, while
      the count is positive, some process still owes a wakeup that will pass over it. */
  lemma NoLostWakeup(run: seq<State>, steps: seq<Step>, i: nat, q: nat)
    requires Runs(run, steps) && i < |run| && q < |run[i].procs|
    requires GoingToSleep(run[i].procs[q]) && run[i].value > 0
    ensures exists r :: 0 <= r < |run[i].procs| && r != q && WillWake(run[i].procs[r], q)
  {
    RunKeeps(run, steps, i);
    assert Heard(run[i], q) && Local(run[i].procs[q]);
    var r :| 0 <= r < |run[i].procs| && WillWake(run[i].procs[r], q);
    assert r != q;
  }

  /** Holders of a lock are alone, and a consumer past its test finds the count as tested. */
  lemma LocksExclude(run: seq<State>, steps: seq<Step>, i: nat)
    requires Runs(run, steps) && i < |run|
    ensures Exclusive(run[i])
    ensures forall q :: 0 <= q < |run[i].procs| && (run[i].procs[q].pc.WantTable? || run[i].procs[q].pc.BothLocks?) ==> run[i].value == 0
  {
    RunKeeps(run, steps, i);
  }

  /** A process that can take its next step inside sleep or wakeup. */
  ghost predicate Moves(s: State, p: nat) {
    p < |s.procs| && CanGo(s, s.procs[p])
  }

  /** The two locks never deadlock: unless all processes are outside, or in their own lines under lk,
      or properly asleep, one of them can take its next step. */
  lemma NoDeadlock(run: seq<State>, steps: seq<Step>, i: nat, p: nat)
    requires Runs(run, steps) && i < |run| && p < |run[i].procs|
    requires !run[i].procs[p].pc.Out? && !run[i].procs[p].sleeping
    ensures exists q :: 0 <= q < |run[i].procs| && (Moves(run[i], q) || run[i].procs[q].pc.In?)
  {
    RunKeeps(run, steps, i);
    var s := run[i];
    if TableFree(s) {
      if s.procs[p].pc.WantLock? && !LkFree(s) {
        var q :| 0 <= q < |s.procs| && HasLk(s.procs[q].pc);
        assert Local(s.procs[q]);
        assert Moves(s, q) || s.procs[q].pc.In?;
      } else {
        assert Moves(s, p) || s.procs[p].pc.In?;
      }
    } else {
      var q :| 0 <= q < |s.procs| && HasTable(s.procs[q].pc);
      assert Moves(s, q);
    }
  }

  // ---- what sleep and wakeup have done when they return ----

  predicate Home(pc: Pc) {
    pc.In? || pc.Out?
  }

  /** Index j is where process p, inside a call from index i on, is back in its own code. */
  ghost predicate Back(run: seq<State>, i: nat, j: nat, p: nat) {
    && i < j < |run| && (forall k :: 0 <= k < |run| ==> p < |run[k].procs|)
    && Home(run[j].procs[p].pc) && forall k :: i < k < j ==> !Home(run[k].procs[p].pc)
  }

  predicate Settling(pc: Pc) {
    pc.WantTable? || pc.BothLocks? || pc.TableOnly?
  }

  predicate Slept(pc: Pc) {
    pc.Marked? || pc.Parked? || pc.Resumed? || pc.WantLock?
  }

  /** One step of any process, seen from one inside sleep. */
  lemma StepAsleep(s: State, t: Step, p: nat)
    requires Enabled(s, t) && p < |s.procs| && (Settling(s.procs[p].pc) || Slept(s.procs[p].pc))
    ensures |Do(s, t).procs| == |s.procs|
    ensures var x := Do(s, t).procs[p];
            if Settling(s.procs[p].pc) then Settling(x.pc) || (x.pc == Marked && x.sleeping)
            else Slept(x.pc) || x.pc == In
  {
  }

  ghost predicate WasAsleep(run: seq<State>, i: nat, k: nat, p: nat) {
    exists m :: i < m <= k && m < |run| && p < |run[m].procs| && run[m].procs[p].sleeping
  }

  lemma {:induction false} StillAsleep(run: seq<State>, steps: seq<Step>, i: nat, k: nat, p: nat)
    requires Runs(run, steps) && i < k < |run| && steps[i] == Step(p, Sleep) && (forall m :: 0 <= m < |run| ==> p < |run[m].procs|)
    requires forall m :: i < m <= k ==> !Home(run[m].procs[p].pc)
    ensures Settling(run[k].procs[p].pc) || (Slept(run[k].procs[p].pc) && WasAsleep(run, i, k, p))
  {
    hide Do, Enabled;
    assert Enabled(run[k - 1], steps[k - 1]) && run[k] == Do(run[k - 1], steps[k - 1]);
    if k == i + 1 {
      SleepCalled(run[i], p);
    } else {
      StillAsleep(run, steps, i, k - 1, p);
      StepAsleep(run[k - 1], steps[k - 1], p);
      if WasAsleep(run, i, k - 1, p) {
        var m :| i < m <= k - 1 && m < |run| && p < |run[m].procs| && run[m].procs[p].sleeping;
        assert run[m].procs[p].sleeping;
      }
    }
  }

  lemma SleepCalled(s: State, p: nat)
    ensures Enabled(s, Step(p, Sleep)) ==> Do(s, Step(p, Sleep)).procs[p].pc == WantTable
  {
  }

  /** sleep, called with lk, has been asleep and returns with lk, which no other process has then. */
  lemma SleepReturns(run: seq<State>, steps: seq<Step>, i: nat, j: nat, p: nat)
    requires Runs(run, steps) && Back(run, i, j, p) && steps[i] == Step(p, Sleep)
    ensures run[i].procs[p].pc == In && run[j].procs[p].pc == In
    ensures exists m :: i < m < j && run[m].procs[p].sleeping && !HasLk(run[m].procs[p].pc)
    ensures forall q :: 0 <= q < |run[j].procs| && q != p ==> !HasLk(run[j].procs[q].pc)
  {
    hide Do, Inv;
    assert Enabled(run[i], steps[i]) && run[i + 1] == Do(run[i], steps[i]);
    SleepCalled(run[i], p);
    if j > i + 1 {
      StillAsleep(run, steps, i, j - 1, p);
      assert Enabled(run[j - 1], steps[j - 1]) && run[j] == Do(run[j - 1], steps[j - 1]);
      StepAsleep(run[j - 1], steps[j - 1], p);
      var m :| i < m <= j - 1 && m < |run| && p < |run[m].procs| && run[m].procs[p].sleeping;
      RunKeeps(run, steps, m);
      AsleepWithout(run[m], p);
      LocksExclude(run, steps, j);
    }
  }

  lemma AsleepWithout(s: State, p: nat)
    requires Inv(s) && p < |s.procs| && s.procs[p].sleeping
    ensures !HasLk(s.procs[p].pc)
  {
    assert Local(s.procs[p]);
  }

  /** Up to process n everyone has been seen awake since index i. */
  ghost predicate Passed(run: seq<State>, i: nat, k: nat, n: nat) {
    forall q :: 0 <= q < n ==> WasAwake(run, i, k, q)
  }

  ghost predicate WasAwake(run: seq<State>, i: nat, k: nat, q: nat) {
    exists m :: i < m <= k && m < |run| && q < |run[m].procs| && !run[m].procs[q].sleeping
  }

  /** One step of any process, seen from one inside wakeup. */
  lemma StepWaking(s: State, t: Step, p: nat)
    requires Enabled(s, t) && p < |s.procs| && (s.procs[p].pc.CallWakeup? || s.procs[p].pc.Waking?)
    ensures |Do(s, t).procs| == |s.procs|
    ensures var pc, x := s.procs[p].pc, Do(s, t).procs[p];
            || x.pc == pc
            || (pc.CallWakeup? && x.pc == Waking(0, pc.back))
            || (pc.Waking? && pc.next < |s.procs| && x.pc == Waking(pc.next + 1, pc.back) && !Do(s, t).procs[pc.next].sleeping)
            || (pc.Waking? && pc.next >= |s.procs| && x.pc == (if pc.back then In else Out) && !x.owes)
  {
  }

  lemma MoreAwake(run: seq<State>, i: nat, k: nat, n: nat)
    requires Passed(run, i, k, n)
    ensures Passed(run, i, k + 1, n)
  {
    var k' := k + 1;
    forall q | 0 <= q < n ensures WasAwake(run, i, k', q) {
      assert WasAwake(run, i, k, q);
      var m :| i < m <= k && m < |run| && q < |run[m].procs| && !run[m].procs[q].sleeping;
      assert !run[m].procs[q].sleeping;
    }
  }

  lemma {:induction false} StillWaking(run: seq<State>, steps: seq<Step>, i: nat, k: nat, p: nat)
    requires Runs(run, steps) && i < k < |run| && steps[i] == Step(p, Wakeup) && (forall m :: 0 <= m < |run| ==> p < |run[m].procs|)
    requires forall m :: i < m <= k ==> !Home(run[m].procs[p].pc)
    ensures var pc := run[k].procs[p].pc;
            (pc.CallWakeup? || pc.Waking?) && (pc.back <==> run[i].procs[p].pc == In) && (pc.Waking? ==> Passed(run, i, k, pc.next))
  {
    hide Do, Enabled, Passed;
    assert Enabled(run[k - 1], steps[k - 1]) && run[k] == Do(run[k - 1], steps[k - 1]);
    if k == i + 1 {
      WakeupCalled(run[i], p);
    } else {
      StillWaking(run, steps, i, k - 1, p);
      StepWaking(run[k - 1], steps[k - 1], p);
      var pc := run[k - 1].procs[p].pc;
      NobodyPassed(run, i, k);
      if pc.Waking? {
        MoreAwake(run, i, k - 1, pc.next);
        if pc.next < |run[k].procs| && !run[k].procs[pc.next].sleeping {
          OneMorePassed(run, i, k, pc.next);
        }
      }
    }
  }

  lemma NobodyPassed(run: seq<State>, i: nat, k: nat)
    ensures Passed(run, i, k, 0)
  {
  }

  lemma OneMorePassed(run: seq<State>, i: nat, k: nat, n: nat)
    requires Passed(run, i, k, n) && i < k < |run| && n < |run[k].procs| && !run[k].procs[n].sleeping
    ensures Passed(run, i, k, n + 1)
  {
    assert WasAwake(run, i, k, n);
  }

  lemma WakeupCalled(s: State, p: nat)
    ensures Enabled(s, Step(p, Wakeup)) ==> Do(s, Step(p, Wakeup)).procs[p].pc == CallWakeup(s.procs[p].pc == In)
  {
  }

  /** wakeup returns where it was called, with lk or without, and every process has been awake since the call. */
  lemma WakeupReturns(run: seq<State>, steps: seq<Step>, i: nat, j: nat, p: nat, q: nat)
    requires Runs(run, steps) && Back(run, i, j, p) && steps[i] == Step(p, Wakeup) && q < |run[0].procs|
    ensures run[j].procs[p].pc == run[i].procs[p].pc && !run[j].procs[p].owes
    ensures exists m :: i < m < j && q < |run[m].procs| && !run[m].procs[q].sleeping
  {
    hide Do, Inv;
    assert Enabled(run[i], steps[i]) && run[i + 1] == Do(run[i], steps[i]);
    WakeupCalled(run[i], p);
    if j > i + 1 {
      StillWaking(run, steps, i, j - 1, p);
      assert Enabled(run[j - 1], steps[j - 1]) && run[j] == Do(run[j - 1], steps[j - 1]);
      StepWaking(run[j - 1], steps[j - 1], p);
      RunKeeps(run, steps, j - 1);
      assert WasAwake(run, i, j - 1, q);
      var m :| i < m <= j - 1 && m < |run| && q < |run[m].procs| && !run[m].procs[q].sleeping;
      assert !run[m].procs[q].sleeping;
    }
  }
}
