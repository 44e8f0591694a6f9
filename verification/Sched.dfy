/**
The process table and ready queue of proc.c in its priority-threshold mode,
under ptable.lock: every function is one atomic change of the table.
*/
module Sched {
  import opened Sets
  import opened ReadyHeap

  const NPROC: nat := 64
  const WORD: nat := 0x1_0000_0000
  /** The unsigned -1 that itr_q holds while the queue is empty. */
  const NONE: nat := 0xFFFF_FFFF

  /** The table entry of initproc: userinit takes the first one. */
  const INIT: nat := 0

  datatype ProcState = UNUSED | EMBRYO | SLEEPING | RUNNABLE | RUNNING | ZOMBIE | WAITING

  /** P is the priority, O the preemption threshold. */
  datatype Proc = Proc(state: ProcState, pid: nat, parent: nat, chan: nat, killed: bool, P: nat, O: nat)

  datatype Choice = Idle | Run(p: nat) | Held | NoCurrent

  // ---- queue contents against process states ----

  ghost function Runnable(procs: seq<Proc>): (r: set<nat>) {
    set p: nat | p < |procs| && procs[p].state == RUNNABLE
  }

  function Prios(procs: seq<Proc>): (r: seq<nat>)
    ensures |r| == |procs| && forall i :: 0 <= i < |r| ==> r[i] == procs[i].P
  {
    seq(|procs|, i requires 0 <= i < |procs| => procs[i].P)
  }

  /** The first n queue entries are the runnable processes, each once. */
  ghost predicate Lists(queue: seq<nat>, n: nat, procs: seq<Proc>) {
    n <= |queue| && multiset(queue[..n]) == multiset(Runnable(procs))
  }

  ghost function AllProcs(n: nat): (r: set<nat>)
    ensures |r| == n && forall p :: p in r <==> 0 <= p < n
  {
    if n == 0 then {} else AllProcs(n - 1) + {n - 1}
  }

  /** The queue never runs out of room: it holds no more than there are processes. */
  lemma QueueFits(queue: seq<nat>, n: nat, procs: seq<Proc>, p: nat)
    requires Lists(queue, n, procs) && p < |procs| && procs[p].state != RUNNABLE
    ensures n < |procs|
  {
    var r := Runnable(procs);
    assert |queue[..n]| == |multiset(queue[..n])| == |multiset(r)| == |r|;
    SubsetSize(r + {p}, AllProcs(|procs|));
  }

  /** A process is queued exactly when it is runnable, and then at one place only. */
  lemma QueuedOnce(queue: seq<nat>, n: nat, procs: seq<Proc>, p: nat)
    requires Lists(queue, n, procs)
    ensures p in queue[..n] <==> p < |procs| && procs[p].state == RUNNABLE
    ensures forall i, j :: 0 <= i < j < n ==> queue[i] != queue[j]
  {
    assert p in queue[..n] <==> p in multiset(queue[..n]);
    forall i, j | 0 <= i < j < n ensures queue[i] != queue[j] {
      var x := queue[i];
      assert queue[..n] == queue[..i] + [x] + queue[i + 1..n];
      assert multiset(queue[..n]) == multiset(queue[..i]) + multiset{x} + multiset(queue[i + 1..n]);
      assert multiset(queue[..n])[x] <= 1;
      assert queue[i + 1..n][j - i - 1] == queue[j];
    }
  }

  lemma RunnableAfter(procs: seq<Proc>, p: nat, x: Proc)
    requires p < |procs|
    ensures Runnable(procs[p := x]) == if x.state == RUNNABLE then Runnable(procs) + {p} else Runnable(procs) - {p}
  {
  }

  lemma SameRunnable(procs: seq<Proc>, procs': seq<Proc>)
    requires |procs'| == |procs| && forall p :: 0 <= p < |procs| ==> (procs'[p].state == RUNNABLE <==> procs[p].state == RUNNABLE)
    ensures Runnable(procs') == Runnable(procs)
  {
  }

  /** Appending a newly runnable process and sifting it up. */
  lemma ListsAfterInsert(queue: seq<nat>, n: nat, procs: seq<Proc>, p: nat, x: Proc, prio: seq<nat>)
    requires Lists(queue, n, procs) && n < |queue| && p < |procs| && procs[p].state != RUNNABLE && x.state == RUNNABLE
    requires ReadyHeap.Procs(queue, prio) && p < |prio|
    ensures Lists(SiftUp(queue[n := p], prio, n), n + 1, procs[p := x])
  {
    var q := queue[n := p];
    var r := SiftUp(q, prio, n);
    SiftUpPermutes(q, prio, n);
    PrefixMultiset(r, q, n + 1);
    assert q[..n + 1] == queue[..n] + [p];
    RunnableAfter(procs, p, x);
    assert p !in Runnable(procs);
    assert multiset(Runnable(procs) + {p}) == multiset(Runnable(procs)) + multiset{p};
  }

  /** Taking the first entry, moving the last to its place, and sifting it down. */
  lemma ListsAfterRemove(queue: seq<nat>, n: nat, procs: seq<Proc>, x: Proc, prio: seq<nat>)
    requires Lists(queue, n + 1, procs) && n < |queue| && ReadyHeap.Procs(queue, prio) && x.state != RUNNABLE
    ensures queue[0] < |procs| && procs[queue[0]].state == RUNNABLE
    ensures Lists(Removed(queue, prio, n), n, procs[queue[0] := x])
  {
    hide Lists, Removed, Runnable;
    var p := queue[0];
    HeadIsRunnable(queue, n, procs);
    HeadRemoved(queue, n);
    RemovedPermutes(queue, prio, n);
    RunnableAfter(procs, p, x);
    RunnableWithout(procs, p);
    ListsNow(Removed(queue, prio, n), n, procs[p := x]);
    ListsThen(queue, n + 1, procs);
  }

  lemma ListsThen(queue: seq<nat>, n: nat, procs: seq<Proc>)
    requires Lists(queue, n, procs)
    ensures n <= |queue| && multiset(queue[..n]) == multiset(Runnable(procs))
  {
  }

  lemma ListsNow(queue: seq<nat>, n: nat, procs: seq<Proc>)
    ensures n <= |queue| && multiset(queue[..n]) == multiset(Runnable(procs)) ==> Lists(queue, n, procs)
  {
  }

  lemma HeadIsRunnable(queue: seq<nat>, n: nat, procs: seq<Proc>)
    requires Lists(queue, n + 1, procs)
    ensures queue[0] < |procs| && procs[queue[0]].state == RUNNABLE && queue[0] in Runnable(procs)
  {
    assert queue[..n + 1][0] in multiset(queue[..n + 1]);
  }

  lemma HeadRemoved(queue: seq<nat>, n: nat)
    requires n < |queue|
    ensures multiset(queue[..n + 1]) == multiset(queue[0 := queue[n]][..n]) + multiset{queue[0]}
  {
    var q := queue[0 := queue[n]];
    if n > 0 {
      assert queue[..n + 1] == [queue[0]] + queue[1..n] + [queue[n]];
      assert q[..n] == [queue[n]] + queue[1..n];
    } else {
      assert queue[..1] == [queue[0]];
    }
  }

  lemma RemovedPermutes(queue: seq<nat>, prio: seq<nat>, n: nat)
    requires n < |queue| && ReadyHeap.Procs(queue, prio)
    ensures |Removed(queue, prio, n)| == |queue| && multiset(Removed(queue, prio, n)[..n]) == multiset(queue[0 := queue[n]][..n])
  {
    var q := queue[0 := queue[n]];
    SiftDownPermutes(q, prio, n, 0);
    PrefixMultiset(Removed(queue, prio, n), q, n);
  }

  lemma RunnableWithout(procs: seq<Proc>, p: nat)
    requires p in Runnable(procs)
    ensures multiset(Runnable(procs) - {p}) == multiset(Runnable(procs)) - multiset{p}
  {
  }

  /** A change to a process that is not queued leaves the queue's order. */
  lemma UpHeapFrame(queue: seq<nat>, n: nat, prio: seq<nat>, prio': seq<nat>, p: nat)
    requires ReadyHeap.Procs(queue, prio) && |prio'| == |prio| && n <= |queue| && UpHeap(queue, prio, n)
    requires p !in queue[..n] && forall q :: 0 <= q < |prio| && q != p ==> prio'[q] == prio[q]
    ensures UpHeap(queue, prio', n)
  {
    forall j | 0 <= j < n ensures P(queue, prio', j) == P(queue, prio, j) {
      assert queue[..n][j] == queue[j];
    }
  }

  class Table {
    const procs: array<Proc>
    const queue: array<nat>
    var itr_q: nat
    var frozen: bool
    var nextpid: nat
    /** Where each process structure lies; wait sleeps on that address. */
    const addr: nat -> nat

    /** How many processes are queued. */
    function Count(): (n: nat)
      reads this
    {
      Incr(itr_q)
    }

    /** queue[0..itr_q] lists exactly the runnable processes. */
    ghost predicate Valid()
      reads this, procs, queue
    {
      && procs.Length == NPROC && queue.Length == NPROC && itr_q < WORD
      && (forall i :: 0 <= i < NPROC ==> queue[i] < NPROC)
      && Lists(queue[..], Count(), procs[..])
    }

    /** The queue is in increasekey's order. */
    ghost predicate Ordered()
      requires Valid()
      reads this, procs, queue
    {
      UpHeap(queue[..], Prios(procs[..]), Count())
    }

    /** No process sleeps in wait while it has a zombie child. */
    ghost predicate Attended()
      requires Valid()
      reads this, procs, queue
    {
      AllAttended(procs[..], addr)
    }

    /** Process numbers are unique and all below the next one. */
    ghost predicate Numbered()
      reads this, procs
    {
      PidsUnique(procs[..], nextpid)
    }

    /** The table as userinit leaves it: the first process runnable and queued. */
    constructor (addr: nat -> nat)
      ensures Valid() && Ordered() && Attended() && Numbered() && fresh(procs) && fresh(queue) && !frozen && itr_q == 0 && this.addr == addr
      ensures procs[0] == Proc(RUNNABLE, 1, NPROC, 0, false, 1, 1)
      ensures forall p :: 1 <= p < NPROC ==> procs[p].state == UNUSED
    {
      procs := new Proc[NPROC](i => if i == 0 then Proc(RUNNABLE, 1, NPROC, 0, false, 1, 1) else Proc(UNUSED, 0, NPROC, 0, false, 0, 0));
      this.addr := addr;
      queue := new nat[NPROC](_ => 0);
      itr_q, frozen, nextpid := 0, false, 2;
      new;
      hide AllAttended, Lists, Runnable;
      FirstTable(procs[..], queue[..], addr);
    }

    /** The lines fork, yield, wakeup1, kill and freeze share: make p runnable and insert it. */
    method Insert(p: nat, x: Proc)
      requires Valid() && p < NPROC && procs[p].state != RUNNABLE && x.state == RUNNABLE
      modifies this`itr_q, procs, queue
      ensures Valid() && procs[..] == old(procs[..])[p := x]
      ensures Count() == old(Count()) + 1
      ensures old(Ordered()) ==> Ordered()
    {
      hide Lists, UpHeap, SiftUp, Runnable;
      ghost var q0, s0, n := queue[..], procs[..], Count();
      QueueFits(q0, n, s0, p);
      procs[p] := x;
      assert procs[..] == s0[p := x];
      var prio := Prios(procs[..]);
      itr_q := Incr(itr_q);
      queue[itr_q] := p;
      assert itr_q == n && queue[..] == q0[n := p];
      IncreaseKey(queue, prio, itr_q);
      ListsAfterInsert(q0, n, s0, p, x, prio);
      OrderAfterInsert(q0, n, s0, p, x);
    }

    /** A change that neither makes a process runnable nor stops it being so. */
    method Update(p: nat, x: Proc)
      requires Valid() && p < NPROC && (procs[p].state == RUNNABLE <==> x.state == RUNNABLE)
      requires x.state == RUNNABLE ==> x.P == procs[p].P
      modifies procs
      ensures Valid() && procs[..] == old(procs[..])[p := x]
      ensures old(Ordered()) ==> Ordered()
    {
      hide Lists, UpHeap, Runnable;
      ghost var s0 := procs[..];
      procs[p] := x;
      assert procs[..] == s0[p := x];
      UpdateKeeps(queue[..], Count(), s0, p, x);
    }

    /** allocproc's search and claim. */
    method Allocproc() returns (found: bool, p: nat)
      requires Valid()
      modifies this`nextpid, procs
      ensures Valid() && (old(Ordered()) ==> Ordered()) && (old(Attended()) ==> Attended())
      ensures old(Numbered()) ==> Numbered()
      ensures !found ==> procs[..] == old(procs[..]) && forall q :: 0 <= q < NPROC ==> procs[q].state != UNUSED
      ensures found ==> p < NPROC && old(procs[p].state) == UNUSED && procs[..] == old(procs[..])[p := old(procs[p]).(state := EMBRYO, pid := old(nextpid), P := 0, O := 0)]
      ensures nextpid == old(nextpid) + if found then 1 else 0
    {
      hide AllAttended, Lists, UpHeap, PidsUnique;
      p := 0;
      while p < NPROC
        invariant 0 <= p <= NPROC && procs[..] == old(procs[..]) && nextpid == old(nextpid) && Valid() && (old(Ordered()) ==> Ordered()) && (old(Attended()) ==> Attended())
        invariant forall q :: 0 <= q < p ==> procs[q].state != UNUSED
      {
        if procs[p].state == UNUSED {
          ghost var x := procs[p].(state := EMBRYO, pid := nextpid, P := 0, O := 0);
          AllocAttended(procs[..], addr, p, x);
          PidTaken(procs[..], nextpid, p, x);
          Update(p, procs[p].(state := EMBRYO, pid := nextpid, P := 0, O := 0));
          nextpid := nextpid + 1;
          return true, p;
        }
        p := p + 1;
      }
      return false, p;
    }

    /** The end of fork: the child becomes runnable and queued, or waits while frozen. */
    method ForkReady(np: nat, parent: nat, pr: nat, o: nat)
      requires Valid() && np < NPROC && procs[np].state == EMBRYO && parent < NPROC && procs[parent].state == RUNNING
      modifies this`itr_q, procs, queue
      ensures Valid() && (old(Ordered()) ==> Ordered()) && (old(Attended()) ==> Attended())
      ensures old(Numbered()) ==> Numbered()
      ensures procs[..] == old(procs[..])[np := old(procs[np]).(state := if frozen then WAITING else RUNNABLE, parent := parent, P := pr, O := o)]
    {
      hide Lists, UpHeap;
      var x := procs[np].(parent := parent, P := pr, O := o);
      if frozen {
        Update(np, x.(state := WAITING));
      } else {
        Insert(np, x.(state := RUNNABLE));
      }
    }

    /** Take the head of the queue: move the last entry there and sift it down. */
    method Take() returns (p: nat)
      requires Valid() && itr_q != NONE
      modifies this`itr_q, procs, queue
      ensures Valid() && (old(Attended()) ==> Attended())
      ensures p == old(queue[0]) && p < NPROC && old(procs[p].state) == RUNNABLE
      ensures procs[..] == old(procs[..])[p := old(procs[p]).(state := RUNNING)]
      ensures Count() == old(Count()) - 1
    {
      hide Lists, SiftDown, Runnable, AllAttended, UpHeap, Incr, Decr;
      Stepping(itr_q);
      ghost var q0, s0, n := queue[..], procs[..], Count();
      SomeRunnable(q0, n, s0);
      p := queue[0];
      var prio := Prios(procs[..]);
      ghost var x := procs[p].(state := RUNNING);
      ListsAfterRemove(q0, n - 1, s0, x, prio);
      queue[0] := queue[itr_q];
      assert queue[..] == q0[0 := q0[n - 1]];
      Heapify(queue, prio, itr_q, 0);
      itr_q := Decr(itr_q);
      procs[p] := procs[p].(state := RUNNING);
      assert procs[..] == s0[p := x];
      if AllAttended(s0, addr) { AttendedAfter(s0, addr, p, x); }
    }

    /** The scheduler's choice.  cur is the process the CPU still has in proc, if any; with frozen
        set the code reads its threshold. */
    method Dispatch(hasCur: bool, cur: nat) returns (c: Choice)
      requires Valid() && (hasCur ==> cur < NPROC)
      modifies this`itr_q, procs, queue
      ensures Valid() && (old(Attended()) ==> Attended())
      ensures old(Numbered()) ==> Numbered()
      ensures c == Idle <==> old(Runnable(procs[..])) == {}
      ensures c == NoCurrent <==> old(Runnable(procs[..])) != {} && frozen && !hasCur
      ensures c == Held <==> old(Runnable(procs[..])) != {} && frozen && hasCur && old(queue[0]) < NPROC && old(procs[queue[0]].P) <= old(procs[cur].O)
      ensures !c.Run? ==> procs[..] == old(procs[..]) && queue[..] == old(queue[..]) && itr_q == old(itr_q)
      ensures c.Run? ==>
                && c.p < NPROC && old(procs[c.p].state) == RUNNABLE
                && procs[..] == old(procs[..])[c.p := old(procs[c.p]).(state := RUNNING)]
                && Count() == old(Count()) - 1
                && (old(Ordered()) ==> forall q :: 0 <= q < NPROC && old(procs[q].state) == RUNNABLE ==> old(procs[c.p].P) >= old(procs[q].P))
                && (Count() == 0 ==> Ordered())
    {
      hide Lists, UpHeap, Runnable, AllAttended;
      ghost var q0, s0, n := queue[..], procs[..], Count();
      SomeRunnable(q0, n, s0);
      if itr_q == NONE {
        return Idle;
      }
      if frozen {
        if !hasCur {
          return NoCurrent;
        }
        if procs[queue[0]].P <= procs[cur].O {
          return Held;
        }
      }
      HighestFirst(q0, n, s0);
      EmptyOrdered();
      var p := Take();
      return Run(p);
    }

    /** yield: give up the CPU if the first queued process beats the caller's threshold. */
    method Yield(cur: nat) returns (preempted: bool)
      requires Valid() && cur < NPROC && procs[cur].state == RUNNING
      modifies this`itr_q, procs, queue
      ensures Valid() && (old(Ordered()) ==> Ordered()) && (old(Attended()) ==> Attended())
      ensures old(Numbered()) ==> Numbered()
      ensures preempted <==> old(queue[0]) < NPROC && old(procs[queue[0]].P) > old(procs[cur].O)
      ensures procs[..] == old(procs[..])[cur := old(procs[cur]).(state := if preempted then RUNNABLE else RUNNING)]
    {
      hide Lists, UpHeap, PidsUnique;
      ghost var s0 := procs[..];
      preempted := procs[queue[0]].P > procs[cur].O;
      if preempted {
        Insert(cur, procs[cur].(state := RUNNABLE));
      } else {
        assert procs[..] == procs[..][cur := procs[cur]];
      }
      PidsKept(s0, procs[..], nextpid);
    }

    /** sleep's change of the table. */
    method Sleep(cur: nat, chan: nat)
      requires Valid() && cur < NPROC && procs[cur].state == RUNNING
      modifies procs
      ensures Valid() && (old(Ordered()) ==> Ordered()) && (old(Attended()) && chan != addr(cur) ==> Attended())
      ensures old(Numbered()) ==> Numbered()
      ensures procs[..] == old(procs[..])[cur := old(procs[cur]).(state := SLEEPING, chan := chan)]
    {
      Update(cur, procs[cur].(state := SLEEPING, chan := chan));
    }

    /** wakeup1: every sleeper whose channel holds the same value becomes runnable and queued. */
    method Wakeup1(chan: nat, content: nat -> int)
      requires Valid()
      modifies this`itr_q, procs, queue
      ensures Valid() && (old(Ordered()) ==> Ordered()) && (old(Attended()) ==> Attended())
      ensures old(Numbered()) ==> Numbered()
      ensures forall q :: 0 <= q < NPROC ==> procs[q] == Woken(old(procs[q]), chan, content)
    {
      hide Lists, UpHeap, PidsUnique;
      ghost var s0 := procs[..];
      var p := 0;
      while p < NPROC
        invariant 0 <= p <= NPROC && Valid() && (old(Ordered()) ==> Ordered()) && (old(Attended()) ==> Attended())
        invariant forall q :: 0 <= q < p ==> procs[q] == Woken(s0[q], chan, content)
        invariant forall q :: p <= q < NPROC ==> procs[q] == s0[q]
      {
        ghost var s1 := procs[..];
        if procs[p].state == SLEEPING && content(procs[p].chan) == content(chan) {
          Insert(p, procs[p].(state := RUNNABLE, chan := 0));
          assert forall q :: 0 <= q < NPROC ==> procs[q] == procs[..][q];
        }
        p := p + 1;
      }
      PidsKept(s0, procs[..], nextpid);
    }

    /** kill: the first process with the pid is marked, and woken if it sleeps. */
    method Kill(pid: nat) returns (ok: bool)
      requires Valid()
      modifies this`itr_q, procs, queue
      ensures Valid() && (old(Ordered()) ==> Ordered()) && (old(Attended()) ==> Attended())
      ensures old(Numbered()) ==> Numbered()
      ensures !ok ==> procs[..] == old(procs[..]) && forall q :: 0 <= q < NPROC ==> procs[q].pid != pid
      ensures ok ==> exists p :: 0 <= p < NPROC && old(procs[p].pid) == pid && (forall q :: 0 <= q < p ==> old(procs[q].pid) != pid)
                       && procs[..] == old(procs[..])[p := Killed(old(procs[p]))]
    {
      hide Lists, UpHeap;
      var p := 0;
      while p < NPROC
        invariant 0 <= p <= NPROC && Valid() && (old(Ordered()) ==> Ordered()) && (old(Attended()) ==> Attended()) && procs[..] == old(procs[..])
        invariant forall q :: 0 <= q < p ==> procs[q].pid != pid
      {
        if procs[p].pid == pid {
          ghost var s0 := procs[..];
          Update(p, procs[p].(killed := true));
          if procs[p].state == SLEEPING {
            Insert(p, procs[p].(state := RUNNABLE));
          }
          assert procs[..] == s0[p := Killed(s0[p])];
          return true;
        }
        p := p + 1;
      }
      return false;
    }

    /** freeze: with 0, every process held back since becomes runnable and queued. */
    method Freeze(f: bool)
      requires Valid()
      modifies this`itr_q, this`frozen, procs, queue
      ensures Valid() && (old(Ordered()) ==> Ordered()) && (old(Attended()) ==> Attended()) && frozen == f
      ensures old(Numbered()) ==> Numbered()
      ensures forall q :: 0 <= q < NPROC ==>
                procs[q] == if !f && old(procs[q].state) == WAITING then old(procs[q]).(state := RUNNABLE) else old(procs[q])
    {
      hide Lists, UpHeap, PidsUnique;
      frozen := f;
      if f {
        return;
      }
      ghost var s0 := procs[..];
      var p := 0;
      while p < NPROC
        invariant 0 <= p <= NPROC && Valid() && (old(Ordered()) ==> Ordered()) && (old(Attended()) ==> Attended()) && frozen == f
        invariant forall q :: 0 <= q < p ==> procs[q] == if s0[q].state == WAITING then s0[q].(state := RUNNABLE) else s0[q]
        invariant forall q :: p <= q < NPROC ==> procs[q] == s0[q]
      {
        if procs[p].state == WAITING {
          Insert(p, procs[p].(state := RUNNABLE));
          assert forall q :: 0 <= q < NPROC ==> procs[q] == procs[..][q];
        }
        p := p + 1;
      }
      PidsKept(s0, procs[..], nextpid);
    }

    /** One turn of exit's loop: a child of the leaving process goes to init. */
    method PassOn(cur: nat, content: nat -> int, p: nat, ghost s0: seq<Proc>)
      requires Valid() && p < NPROC && Leaving(s0, procs[..], cur, content, addr, p)
      modifies this`itr_q, procs, queue
      ensures Valid() && (old(Ordered()) ==> Ordered()) && Leaving(s0, procs[..], cur, content, addr, p + 1)
    {
      hide Lists, UpHeap, Leaving, AllAttended;
      ghost var s1 := procs[..];
      if procs[p].parent == cur {
        Update(p, procs[p].(parent := INIT));
        ghost var s2 := procs[..];
        if procs[p].state == ZOMBIE {
          Wakeup1(addr(INIT), content);
        }
        LeavingMoves(s0, s1, s2, procs[..], cur, content, addr, p);
      } else {
        LeavingSkips(s0, s1, cur, content, addr, p);
      }
    }

    /** exit's change of the table: wake the parent, hand the children to init, become a zombie. */
    method Exit(cur: nat, content: nat -> int)
      requires Valid() && cur < NPROC && cur != INIT && procs[cur].state == RUNNING
      modifies this`itr_q, procs, queue
      ensures Valid() && (old(Ordered()) ==> Ordered()) && (old(Attended()) ==> Attended())
      ensures old(Numbered()) ==> Numbered()
      ensures procs[cur] == AfterExit(old(procs[cur]), cur, true, false).(state := ZOMBIE)
      ensures forall q :: 0 <= q < NPROC && q != cur ==> procs[q] == AfterExit(old(procs[q]), cur, true, Reached(old(procs[..]), q, cur, content, addr, NPROC))
    {
      hide Lists, UpHeap, Leaving, AllAttended, PidsUnique, Reached;
      ghost var s0 := procs[..];
      Wakeup1(addr(procs[cur].parent), content);
      LeavingStarts(s0, procs[..], cur, content, addr);
      var p := 0;
      while p < NPROC
        invariant 0 <= p <= NPROC && Valid() && (old(Ordered()) ==> Ordered())
        invariant Leaving(s0, procs[..], cur, content, addr, p)
      {
        PassOn(cur, content, p, s0);
        p := p + 1;
      }
      LeavingEnds(s0, procs[..], cur, content, addr);
      Update(cur, procs[cur].(state := ZOMBIE));
      PidsKept(s0, procs[..], nextpid);
    }

    /** wait, up to where it sleeps: reap a zombie child, give up, or go to sleep. */
    method Wait(cur: nat) returns (r: WaitResult)
      requires Valid() && cur < NPROC && procs[cur].state == RUNNING
      modifies procs
      ensures Valid() && (old(Ordered()) ==> Ordered()) && (old(Attended()) ==> Attended())
      ensures old(Numbered()) ==> Numbered()
      ensures r.Reaped? ==>
                && r.p < NPROC && old(procs[r.p].parent) == cur && old(procs[r.p].state) == ZOMBIE && r.pid == old(procs[r.p].pid)
                && procs[..] == old(procs[..])[r.p := old(procs[r.p]).(state := UNUSED, pid := 0, parent := NPROC, killed := false)]
      ensures !r.Reaped? ==> forall q :: 0 <= q < NPROC && old(procs[q].parent) == cur ==> old(procs[q].state) != ZOMBIE
      ensures r.Failed? <==> !r.Reaped? && (old(procs[cur].killed) || forall q :: 0 <= q < NPROC ==> old(procs[q].parent) != cur)
      ensures r.Failed? ==> procs[..] == old(procs[..])
      ensures r.Slept? ==> procs[..] == old(procs[..])[cur := old(procs[cur]).(state := SLEEPING, chan := addr(cur))]
    {
      hide Lists, UpHeap;
      var havekids := false;
      var p := 0;
      while p < NPROC
        invariant 0 <= p <= NPROC && Valid() && (old(Ordered()) ==> Ordered()) && (old(Attended()) ==> Attended()) && procs[..] == old(procs[..])
        invariant havekids <==> exists q :: 0 <= q < p && procs[q].parent == cur
        invariant forall q :: 0 <= q < p && procs[q].parent == cur ==> procs[q].state != ZOMBIE
      {
        if procs[p].parent == cur {
          havekids := true;
          if procs[p].state == ZOMBIE {
            var pid := procs[p].pid;
            Update(p, procs[p].(state := UNUSED, pid := 0, parent := NPROC, killed := false));
            return Reaped(p, pid);
          }
        }
        p := p + 1;
      }
      if !havekids || procs[cur].killed {
        return Failed;
      }
      Sleep(cur, addr(cur));
      return Slept;
    }

    /** exit and then the parent's wait: with no other zombie child the parent gets the pid of the process that
        left, and the entry is free again. */
    method ExitThenWait(cur: nat, content: nat -> int) returns (r: WaitResult)
      requires Valid() && cur < NPROC && cur != INIT && procs[cur].state == RUNNING
      requires procs[cur].parent < NPROC && procs[cur].parent != cur && procs[procs[cur].parent].state == RUNNING
      requires forall q :: 0 <= q < NPROC && procs[q].state == ZOMBIE ==> procs[q].parent != procs[cur].parent && procs[q].parent != cur
      modifies this`itr_q, procs, queue
      ensures Valid() && r == Reaped(cur, old(procs[cur].pid))
      ensures procs[cur] == old(procs[cur]).(state := UNUSED, pid := 0, parent := NPROC, killed := false)
    {
      hide Lists, UpHeap, AllAttended;
      var w := procs[cur].parent;
      ghost var s0 := procs[..];
      Exit(cur, content);
      assert forall q :: 0 <= q < NPROC && q != cur ==> (procs[q].state == ZOMBIE <==> s0[q].state == ZOMBIE);
      r := Wait(w);
    }
  }

  /** itr_q++ and itr_q-- on an unsigned int. */
  function Incr(u: nat): (r: nat) {
    (u + 1) % WORD
  }

  function Decr(u: nat): (r: nat) {
    (u + WORD - 1) % WORD
  }

  lemma Stepping(i: nat)
    requires i < WORD
    ensures Incr(i) < WORD && Decr(i) < WORD && Incr(Decr(i)) == i && (i != NONE ==> Incr(i) == i + 1)
  {
  }

  datatype WaitResult = Reaped(p: nat, pid: nat) | Failed | Slept

  ghost predicate InWait(x: Proc, a: nat) {
    x.state == SLEEPING && x.chan == a
  }

  /** A wakeup of the channel reaches the process. */
  ghost predicate Waits(x: Proc, content: nat -> int, chan: nat) {
    x.state == SLEEPING && content(x.chan) == content(chan)
  }

  function Woken(x: Proc, chan: nat, content: nat -> int): (y: Proc) {
    if x.state == SLEEPING && content(x.chan) == content(chan) then x.(state := RUNNABLE, chan := 0) else x
  }

  function Killed(x: Proc): (y: Proc) {
    if x.state == SLEEPING then x.(killed := true, state := RUNNABLE) else x.(killed := true)
  }

  /** A process after an exit of cur: a child goes to init, a sleeper reached by a wakeup is runnable, and
      nothing else changes. */
  function AfterExit(x: Proc, cur: nat, passed: bool, woken: bool): (y: Proc) {
    var y := if passed && x.parent == cur then x.(parent := INIT) else x;
    if woken then y.(state := RUNNABLE, chan := 0) else y
  }

  /** Exit's wakeups up to table entry p reach process q: the one for cur's parent, or one for init because of a
      zombie child of cur. */
  ghost predicate Reached(s0: seq<Proc>, q: nat, cur: nat, content: nat -> int, addr: nat -> nat, p: nat)
    requires q < |s0| && cur < |s0| && p <= |s0|
  {
    || Waits(s0[q], content, addr(s0[cur].parent))
    || (Waits(s0[q], content, addr(INIT)) && exists r :: 0 <= r < p && s0[r].parent == cur && s0[r].state == ZOMBIE)
  }

  /** Exit after passing the first p table entries. */
  ghost predicate Leaving(s0: seq<Proc>, s: seq<Proc>, cur: nat, content: nat -> int, addr: nat -> nat, p: nat) {
    && |s0| == |s| == NPROC && cur < NPROC && cur != INIT && p <= NPROC && s0[cur].state == RUNNING
    && forall q :: 0 <= q < NPROC ==> s[q] == AfterExit(s0[q], cur, q < p, Reached(s0, q, cur, content, addr, p))
  }

  ghost predicate WokenAll(s: seq<Proc>, s': seq<Proc>, chan: nat, content: nat -> int) {
    |s'| == |s| && forall q :: 0 <= q < |s| ==> s'[q] == Woken(s[q], chan, content)
  }

  lemma LeavingStarts(s0: seq<Proc>, s: seq<Proc>, cur: nat, content: nat -> int, addr: nat -> nat)
    requires |s0| == NPROC && cur < NPROC && cur != INIT && s0[cur].state == RUNNING
    requires WokenAll(s0, s, addr(s0[cur].parent), content)
    ensures Leaving(s0, s, cur, content, addr, 0)
  {
  }

  lemma LeavingSkips(s0: seq<Proc>, s: seq<Proc>, cur: nat, content: nat -> int, addr: nat -> nat, p: nat)
    requires Leaving(s0, s, cur, content, addr, p) && p < NPROC && s[p].parent != cur
    ensures Leaving(s0, s, cur, content, addr, p + 1)
  {
    forall q | 0 <= q < NPROC ensures Reached(s0, q, cur, content, addr, p + 1) == Reached(s0, q, cur, content, addr, p) {
    }
  }

  /** One abandoned child: reparented, and init woken if the child is a zombie. */
  lemma LeavingMoves(s0: seq<Proc>, s: seq<Proc>, s': seq<Proc>, s'': seq<Proc>, cur: nat, content: nat -> int, addr: nat -> nat, p: nat)
    requires Leaving(s0, s, cur, content, addr, p) && p < NPROC && s[p].parent == cur && s' == s[p := s[p].(parent := INIT)]
    requires if s[p].state == ZOMBIE then WokenAll(s', s'', addr(INIT), content) else s'' == s'
    ensures Leaving(s0, s'', cur, content, addr, p + 1)
  {
    assert s0[p].parent == cur && (s[p].state == ZOMBIE <==> s0[p].state == ZOMBIE);
    forall q | 0 <= q < NPROC ensures s''[q] == AfterExit(s0[q], cur, q < p + 1, Reached(s0, q, cur, content, addr, p + 1)) {
      assert Reached(s0, q, cur, content, addr, p + 1) <==>
             Reached(s0, q, cur, content, addr, p) || (Waits(s0[q], content, addr(INIT)) && s0[p].state == ZOMBIE);
    }
  }

  /** Every waiting parent of a new zombie has been woken. */
  lemma LeavingEnds(s0: seq<Proc>, s: seq<Proc>, cur: nat, content: nat -> int, addr: nat -> nat)
    requires Leaving(s0, s, cur, content, addr, NPROC)
    ensures s[cur] == AfterExit(s0[cur], cur, true, false) && s[cur].state == RUNNING
    ensures forall q :: 0 <= q < NPROC ==> s[q].pid == s0[q].pid && (s[q].state == UNUSED <==> s0[q].state == UNUSED)
    ensures forall q :: 0 <= q < NPROC ==> s[q] == AfterExit(s0[q], cur, true, Reached(s0, q, cur, content, addr, NPROC))
    ensures AllAttended(s0, addr) ==> AllAttended(s[cur := s[cur].(state := ZOMBIE)], addr)
  {
    var s' := s[cur := s[cur].(state := ZOMBIE)];
    if AllAttended(s0, addr) {
      forall w, q | 0 <= w < NPROC && 0 <= q < NPROC && InWait(s'[w], addr(w)) && s'[q].parent == w ensures s'[q].state != ZOMBIE {
        assert s[w] == AfterExit(s0[w], cur, true, Reached(s0, w, cur, content, addr, NPROC)) && s[q] == AfterExit(s0[q], cur, true, Reached(s0, q, cur, content, addr, NPROC));
        assert InWait(s0[w], addr(w));
      }
    }
  }

  /** init has no parent and nobody is their own parent. */
  ghost predicate Family(procs: seq<Proc>) {
    && |procs| == NPROC && procs[INIT].parent == NPROC && procs[INIT].state !in {UNUSED, EMBRYO}
    && forall q :: 0 <= q < |procs| ==> procs[q].parent != q
  }

  ghost predicate AllAttended(procs: seq<Proc>, addr: nat -> nat) {
    Family(procs) && forall w, q :: 0 <= w < |procs| && 0 <= q < |procs| && InWait(procs[w], addr(w)) && procs[q].parent == w ==> procs[q].state != ZOMBIE
  }

  ghost predicate PidsUnique(procs: seq<Proc>, next: nat) {
    && 0 < next && (forall p :: 0 <= p < |procs| && procs[p].state != UNUSED ==> 0 < procs[p].pid < next)
    && forall p, q :: 0 <= p < q < |procs| && procs[p].state != UNUSED && procs[q].state != UNUSED ==> procs[p].pid != procs[q].pid
  }

  /** Entries keep their numbers or become unused. */
  lemma PidsKept(procs: seq<Proc>, procs': seq<Proc>, next: nat)
    requires |procs'| == |procs| && forall p :: 0 <= p < |procs| ==> procs'[p].state == UNUSED || (procs[p].state != UNUSED && procs'[p].pid == procs[p].pid)
    ensures PidsUnique(procs, next) ==> PidsUnique(procs', next)
  {
  }

  /** A new process gets a number no process has. */
  lemma PidTaken(procs: seq<Proc>, next: nat, p: nat, x: Proc)
    requires p < |procs| && x.pid == next
    ensures PidsUnique(procs, next) ==> PidsUnique(procs[p := x], next + 1)
  {
  }

  /** A change that makes no zombie and puts no one into wait. */
  lemma AttendedAfter(procs: seq<Proc>, addr: nat -> nat, p: nat, x: Proc)
    requires AllAttended(procs, addr) && p < |procs| && (x.parent == procs[p].parent || (x.parent != p && p != INIT))
    requires x.state == ZOMBIE ==> procs[p].state == ZOMBIE && x.parent == procs[p].parent
    requires !InWait(x, addr(p)) && (p == INIT ==> x.state !in {UNUSED, EMBRYO})
    ensures AllAttended(procs[p := x], addr)
  {
  }

  lemma AllocAttended(procs: seq<Proc>, addr: nat -> nat, p: nat, x: Proc)
    requires p < |procs| && procs[p].state == UNUSED && x.state == EMBRYO && x.parent == procs[p].parent
    ensures AllAttended(procs, addr) ==> AllAttended(procs[p := x], addr)
  {
  }

  lemma FirstTable(procs: seq<Proc>, queue: seq<nat>, addr: nat -> nat)
    requires |procs| == NPROC && |queue| == NPROC && queue[0] == 0
    requires procs[0] == Proc(RUNNABLE, 1, NPROC, 0, false, 1, 1)
    requires forall i :: 1 <= i < NPROC ==> procs[i] == Proc(UNUSED, 0, NPROC, 0, false, 0, 0)
    ensures Lists(queue, 1, procs) && AllAttended(procs, addr)
  {
    assert Runnable(procs) == {0};
    assert queue[..1] == [0];
  }

  lemma UpdateKeeps(queue: seq<nat>, n: nat, procs: seq<Proc>, p: nat, x: Proc)
    requires Lists(queue, n, procs) && p < |procs| && ReadyHeap.Procs(queue, Prios(procs))
    requires procs[p].state == RUNNABLE <==> x.state == RUNNABLE
    requires x.state == RUNNABLE ==> x.P == procs[p].P
    ensures Lists(queue, n, procs[p := x])
    ensures n <= |queue| && (UpHeap(queue, Prios(procs), n) ==> UpHeap(queue, Prios(procs[p := x]), n))
  {
    SameRunnable(procs, procs[p := x]);
    if UpHeap(queue, Prios(procs), n) {
      QueuedOnce(queue, n, procs, p);
      if procs[p].state == RUNNABLE {
        assert Prios(procs[p := x]) == Prios(procs);
      } else {
        UpHeapFrame(queue, n, Prios(procs), Prios(procs[p := x]), p);
      }
    }
  }

  lemma OrderAfterInsert(queue: seq<nat>, n: nat, procs: seq<Proc>, p: nat, x: Proc)
    requires Lists(queue, n, procs) && n < |queue| && p < |procs| && procs[p].state != RUNNABLE && ReadyHeap.Procs(queue, Prios(procs))
    ensures ReadyHeap.Procs(queue[n := p], Prios(procs[p := x]))
    ensures UpHeap(queue, Prios(procs), n) ==> UpHeap(SiftUp(queue[n := p], Prios(procs[p := x]), n), Prios(procs[p := x]), n + 1)
  {
    var prio := Prios(procs[p := x]);
    if UpHeap(queue, Prios(procs), n) {
      QueuedOnce(queue, n, procs, p);
      UpHeapFrame(queue, n, Prios(procs), prio, p);
      assert UpHeap(queue[n := p], prio, n);
      InsertKeepsUpHeap(queue[n := p], prio, n);
    }
  }

  lemma EmptyOrdered()
    ensures forall queue: seq<nat>, prio: seq<nat> :: ReadyHeap.Procs(queue, prio) ==> UpHeap(queue, prio, 0)
  {
  }

  lemma SomeRunnable(queue: seq<nat>, n: nat, procs: seq<Proc>)
    requires Lists(queue, n, procs)
    ensures n == 0 <==> Runnable(procs) == {}
    ensures n > 0 ==> n <= |queue| && n <= |procs|
  {
    var r := Runnable(procs);
    assert |queue[..n]| == |multiset(queue[..n])| == |multiset(r)| == |r|;
    SubsetSize(r, AllProcs(|procs|));
  }

  lemma HighestFirst(queue: seq<nat>, n: nat, procs: seq<Proc>)
    requires Lists(queue, n, procs) && 0 < n <= |queue| && ReadyHeap.Procs(queue, Prios(procs))
    ensures UpHeap(queue, Prios(procs), n) ==> forall q :: 0 <= q < |procs| && procs[q].state == RUNNABLE ==> procs[queue[0]].P >= procs[q].P
  {
    if UpHeap(queue, Prios(procs), n) {
      forall q | 0 <= q < |procs| && procs[q].state == RUNNABLE ensures procs[queue[0]].P >= procs[q].P {
        QueuedOnce(queue, n, procs, q);
        var j :| 0 <= j < n && queue[..n][j] == q;
        UpHeapRoot(queue, Prios(procs), n, j);
      }
    }
  }
}
