/**
Growing an address space and writing into one (vm.c: allocuvm, uva2ka, copyout).
*/
module VmUser {
  import opened VmTables
  import opened Vm

  /** PTE_W|PTE_U, without PTE_P. */
  const USER_RW: nat := 6

  // ---- allocuvm ----

  datatype PageOutcome = Got | NoFrame | NoTable | Remapped

  datatype GrowResult = Returned(size: nat) | RemapPanic

  /** A page of a growing range whose page table has to be made first. */
  predicate NewTable(tabs: Tabs, a0: nat, v: nat) {
    v / NPT !in tabs && (v == a0 || v % NPT == 0)
  }

  /** Frames for the pages from a0 up to a, with their page-table pages. */
  function Wants(tabs: Tabs, a0: nat, a: nat): (k: nat)
    requires a0 <= a
    decreases a - a0
  {
    if a == a0 then 0 else Wants(tabs, a0, a - 1) + 1 + One(NewTable(tabs, a0, a - 1))
  }

  lemma {:induction false} WantsGrow(tabs: Tabs, a0: nat, a: nat, b: nat)
    requires a0 <= a <= b
    ensures Wants(tabs, a0, a) + (b - a) <= Wants(tabs, a0, b)
    decreases b - a
  {
    if a < b { WantsGrow(tabs, a0, a, b - 1); }
  }

  /** After the pages a0 up to a were added, all of them new, zeroed and writable. */
  ghost predicate Growing(t0: Tabs, t: Tabs, mem: map<nat, Page>, a0: nat, a: nat) {
    && a0 <= a
    && (forall v :: a0 <= v < a ==>
          !Mapped(t0, v) && Mapped(t, v) && At(t, v).flags == USER_RW && At(t, v).frame in mem && mem[At(t, v).frame] == Filled(0))
    && (forall v :: 0 <= v && !(a0 <= v < a) ==> SameAt(t0, t, v))
    && (forall r :: r in t <==> r in t0 || (a0 < a && a0 / NPT <= r <= (a - 1) / NPT))
  }

  lemma GrowingNext(t0: Tabs, t: Tabs, mem: map<nat, Page>, a0: nat, a: nat)
    requires Growing(t0, t, mem, a0, a)
    ensures (a / NPT in t <==> !NewTable(t0, a0, a)) && (Mapped(t, a) <==> Mapped(t0, a))
  {
    assert SameAt(t0, t, a);
  }

  lemma GrowingStep(t0: Tabs, t: Tabs, t': Tabs, m: map<nat, Page>, m': map<nat, Page>, free: seq<nat>, a0: nat, a: nat, f: nat)
    requires Growing(t0, t, m, a0, a) && a < NPAGES && Exclusive(free, map[], t) && !Mapped(t, a)
    requires Entered(t, t', a, Pte(f, USER_RW)) && Untouched(m, m', free) && f in m' && m'[f] == Filled(0)
    ensures Growing(t0, t', m', a0, a + 1)
  {
    hide Mapped, At, Uses, Filled;
    assert SameAt(t0, t, a);
    forall v | a0 <= v < a + 1
      ensures !Mapped(t0, v) && Mapped(t', v) && At(t', v).flags == USER_RW && At(t', v).frame in m' && m'[At(t', v).frame] == Filled(0)
    {
      if v < a {
        assert SameAt(t, t', v);
        NotFree(free, map[], t, v);
      }
    }
    forall v: nat | !(a0 <= v < a + 1) ensures SameAt(t0, t', v) {
      assert SameAt(t0, t, v) && SameAt(t, t', v);
    }
    forall r: nat ensures r in t' <==> r in t0 || a0 / NPT <= r <= a / NPT {
      assert r in t' <==> r in t || r == a / NPT;
    }
  }

  /** One turn of allocuvm's loop.  mappages' failure is not looked at. */
  method AllocPage(m: Machine, sp: Space, v: nat) returns (o: PageOutcome, ghost lost: seq<nat>, ghost f: nat)
    requires m.Valid() && sp.In(m.lo, m.hi) && v < NPAGES && Exclusive(m.free, map[], sp.tabs)
    modifies m, sp`tabs
    ensures m.Valid() && sp.In(m.lo, m.hi)
    ensures o.NoFrame? <==> old(m.free) == []
    ensures o.Remapped? <==> old(m.free) != [] && Mapped(old(sp.tabs), v)
    ensures o.NoTable? <==> |old(m.free)| == 1 && v / NPT !in old(sp.tabs)
    ensures !o.Got? ==> sp.tabs == old(sp.tabs) && old(m.free) == lost + m.free && |lost| == One(!o.NoFrame?)
    ensures o.Got? ==>
              && Entered(old(sp.tabs), sp.tabs, v, Pte(f, USER_RW)) && f in m.mem && m.mem[f] == Filled(0)
              && |m.free| == |old(m.free)| - 1 - One(v / NPT !in old(sp.tabs)) && lost == []
    ensures Accounted(old(m.free), old(sp.tabs), m.free, sp.tabs, lost) && Untouched(old(m.mem), m.mem, old(m.free)) && Subset(m.free, old(m.free))
  {
    hide Ranges, Uses, Entered, Filled, Total, Accounted, Exclusive, Untouched, SameAt;
    ghost var f0, t0, m0 := m.free, sp.tabs, m.mem;
    f := 0;
    var g := m.Kalloc();
    NothingLost(f0, t0);
    if g.None? {
      NothingTouched(m0, f0);
      return NoFrame, [], 0;
    }
    HeadOnce(f0, m.free, g.v, sp.tabs);
    m.mem := m.mem[g.v := Filled(0)];
    ghost var f1, m1 := m.free, m.mem;
    var r := m.MapOne(sp, v, g.v, USER_RW);
    TakenHead(f0, t0, f1, g.v, m.free, sp.tabs, r.AllMapped?);
    TakenTouched(m0, m1, m.mem, f0, f1, g.v);
    match r
    case AllMapped => return Got, [], g.v;
    case NoMemory => return NoTable, [g.v], 0;
    case Remap => return Remapped, [g.v], 0;
  }

  /** kalloc's frame: mapped, or on its way to nowhere. */
  lemma TakenHead(f0: seq<nat>, t0: Tabs, f1: seq<nat>, x: nat, f2: seq<nat>, t2: Tabs, mapped: bool)
    requires f0 == [x] + f1 && forall g: nat :: Total(f2, t2, g) == Total(f1, t0, g) + One(mapped && g == x)
    ensures Accounted(f0, t0, f2, t2, if mapped then [] else [x])
  {
    hide Uses;
    forall g: nat ensures Total(f2, t2, g) + multiset(if mapped then [] else [x])[g] == Total(f0, t0, g) {
      assert multiset(f0)[g] == One(g == x) + multiset(f1)[g];
    }
  }

  lemma TakenTouched(m0: map<nat, Page>, m1: map<nat, Page>, m2: map<nat, Page>, f0: seq<nat>, f1: seq<nat>, x: nat)
    requires f0 == [x] + f1 && x in m0 && x !in f1 && m1 == m0[x := Filled(0)] && Untouched(m1, m2, f1)
    ensures Untouched(m0, m2, f0) && x in m2 && m2[x] == Filled(0)
  {
  }

  lemma HeadOnce(free: seq<nat>, rest: seq<nat>, x: nat, tabs: Tabs)
    requires free == [x] + rest && Exclusive(free, map[], tabs)
    ensures x !in rest
  {
    assert multiset(free)[x] == 1 + multiset(rest)[x];
    assert multiset(free)[x] + Uses(map[], x) + Uses(tabs, x) <= 1;
  }

  /** After the walk of a failed allocuvm every page is as it was, if the range was empty before. */
  lemma Undone(t0: Tabs, t: Tabs, mem: map<nat, Page>, a0: nat, a: nat, end: nat, v: nat)
    requires Growing(t0, t, mem, a0, a) && a <= end && forall u :: a0 <= u < end ==> !Mapped(t0, u)
    ensures SameAt(t0, Sweep(t, a0, end), v)
  {
    assert !(a0 <= v < a) ==> SameAt(t0, t, v);
    SweepKeeps(t, a0, end, v);
    if v < a0 {
      SweepBelow(t, a0, end, v);
    } else if v < a {
      SweepPresent(t, a0, end, v);
    }
  }

  /** How a growing space stands after its loop reached page a; missed: the page before a got no table. */
  ghost predicate Reached(t0: Tabs, f0: seq<nat>, t: Tabs, free: seq<nat>, mem: map<nat, Page>, lost: seq<nat>, a0: nat, a: nat, missed: bool) {
    if missed then
      a0 < a && Growing(t0, t, mem, a0, a - 1) && free == [] && |lost| == 1 && |f0| == Wants(t0, a0, a - 1) + 1 && NewTable(t0, a0, a - 1)
    else
      Growing(t0, t, mem, a0, a) && lost == [] && |free| == |f0| - Wants(t0, a0, a)
  }

  ghost predicate Accounted(f0: seq<nat>, t0: Tabs, free: seq<nat>, t: Tabs, lost: seq<nat>) {
    forall g: nat :: Total(free, t, g) + multiset(lost)[g] == Total(f0, t0, g)
  }

  lemma AccountedOn(f0: seq<nat>, t0: Tabs, f1: seq<nat>, t1: Tabs, f2: seq<nat>, t2: Tabs, lost: seq<nat>)
    requires Accounted(f0, t0, f1, t1, []) && Accounted(f1, t1, f2, t2, lost)
    ensures Accounted(f0, t0, f2, t2, lost)
  {
    forall g: nat ensures Total(f2, t2, g) + multiset(lost)[g] == Total(f0, t0, g) {
      assert Total(f1, t1, g) + multiset([])[g] == Total(f0, t0, g);
      assert Total(f2, t2, g) + multiset(lost)[g] == Total(f1, t1, g);
    }
  }

  /** What allocuvm promises once its two tests are past, for the pages a0 up to end. */
  ghost predicate Grew(t0: Tabs, f0: seq<nat>, t: Tabs, mem: map<nat, Page>, r: GrowResult, newsz: nat, a0: nat, end: nat, lost: seq<nat>)
    requires a0 <= end
  {
    if r.RemapPanic? then
      exists v :: a0 <= v < end && Mapped(t0, v)
    else if |f0| >= Wants(t0, a0, end) then
      r.size == newsz && Growing(t0, t, mem, a0, end) && lost == []
    else if |f0| + 1 == Wants(t0, a0, end) && a0 < end && NewTable(t0, a0, end - 1) then
      r.size == newsz && Growing(t0, t, mem, a0, end - 1) && |lost| == 1
    else
      r.size == 0 && |lost| <= 1 && ((forall v :: a0 <= v < end ==> !Mapped(t0, v)) ==> forall v :: 0 <= v ==> SameAt(t0, t, v))
  }

  /** allocuvm.  It claims success with the last page missing exactly when that page needs a page table and
      one frame is wanting. */
  method Allocuvm(m: Machine, sp: Space, oldsz: nat, newsz: nat) returns (r: GrowResult, ghost lost: seq<nat>)
    requires m.Valid() && sp.In(m.lo, m.hi) && Exclusive(m.free, map[], sp.tabs) && oldsz <= KERNBASE
    modifies m, sp`tabs
    ensures m.Valid() && sp.In(m.lo, m.hi) && Accounted(old(m.free), old(sp.tabs), m.free, sp.tabs, lost)
    ensures newsz >= KERNBASE ==> r == Returned(0) && sp.tabs == old(sp.tabs) && m.free == old(m.free)
    ensures newsz < KERNBASE && newsz < oldsz ==> r == Returned(oldsz) && sp.tabs == old(sp.tabs) && m.free == old(m.free)
    ensures oldsz <= newsz < KERNBASE ==>
              PagesUp(oldsz) <= PagesUp(newsz) && Grew(old(sp.tabs), old(m.free), sp.tabs, m.mem, r, newsz, PagesUp(oldsz), PagesUp(newsz), lost)
    ensures Untouched(old(m.mem), m.mem, if r == Returned(newsz) || r.RemapPanic? then old(m.free) else old(m.free) + m.free)
  {
    hide Ranges, Uses, Total, Growing, Exclusive, Wants, Accounted, Grew, Sweep, PagesUp, Reached, Untouched, Subset;
    ghost var t0, f0, m0 := sp.tabs, m.free, m.mem;
    NothingLost(f0, t0);
    TouchedNothing(m0, f0);
    lost := [];
    if newsz >= KERNBASE {
      return Returned(0), [];
    }
    if newsz < oldsz {
      return Returned(oldsz), [];
    }
    ghost var a0, end := PagesUp(oldsz), PagesUp(newsz);
    SizesInPages(oldsz, newsz);
    var a := PagesUp(oldsz);
    ghost var missed := false;
    GrowStarts(t0, f0, m.mem, a0);
    while a * PGSIZE < newsz
      invariant a0 <= a <= end && m.Valid() && sp.In(m.lo, m.hi) && Exclusive(m.free, map[], sp.tabs)
      invariant Reached(t0, f0, sp.tabs, m.free, m.mem, lost, a0, a, missed) && Accounted(f0, t0, m.free, sp.tabs, lost)
      invariant Untouched(m0, m.mem, f0) && Subset(m.free, f0)
      decreases newsz - a
    {
      InPages(a, newsz);
      ghost var t1, f1, m1 := sp.tabs, m.free, m.mem;
      ghost var f;
      ghost var l;
      var o;
      o, l, f := AllocPage(m, sp, a);
      TouchedMore(m0, m1, m.mem, f0, f1, m.free);
      ghost var m2 := m.mem;
      if o.NoFrame? {
        AllocStops(t0, f0, t1, f1, m1, lost, a0, a, end, missed);
        var z := m.Deallocuvm(sp, newsz, oldsz);
        AfterWalk(t0, f0, t1, m1, lost, a0, a, end, missed, sp.tabs, m.mem, newsz);
        AccountedWalk(f0, t0, f1, t1, m.free, sp.tabs, lost);
        TouchedEither(m0, m2, m.mem, f0, m.free);
        return Returned(0), lost;
      }
      AllocGoes(t0, f0, t1, sp.tabs, f1, m.free, m1, m.mem, lost, l, a0, a, missed, o, f);
      if o.Remapped? {
        AccountedOn(f0, t0, f1, t1, m.free, sp.tabs, l);
        lost := l;
        GrewPanic(t0, f0, sp.tabs, m.mem, newsz, a0, a, end, lost);
        return RemapPanic, lost;
      }
      AccountedOn(f0, t0, f1, t1, m.free, sp.tabs, l);
      ExclusiveOn(f1, t1, m.free, sp.tabs, l);
      missed, lost := o.NoTable?, l;
      a := a + 1;
    }
    PastEnd(a, end, newsz);
    AllocEnds(t0, f0, sp.tabs, m.free, m.mem, lost, a0, end, missed, newsz);
    TouchedAnyway(m0, m.mem, f0, m.free);
    return Returned(newsz), lost;
  }

  lemma TouchedNothing(m: map<nat, Page>, free: seq<nat>)
    ensures Untouched(m, m, free) && Untouched(m, m, free + free) && Subset(free, free)
  {
  }

  lemma TouchedMore(m0: map<nat, Page>, m1: map<nat, Page>, m2: map<nat, Page>, f0: seq<nat>, f1: seq<nat>, f2: seq<nat>)
    requires Untouched(m0, m1, f0) && Untouched(m1, m2, f1) && Subset(f1, f0) && Subset(f2, f1)
    ensures Untouched(m0, m2, f0) && Subset(f2, f0)
  {
  }

  lemma TouchedEither(m0: map<nat, Page>, m1: map<nat, Page>, m2: map<nat, Page>, f0: seq<nat>, f2: seq<nat>)
    requires Untouched(m0, m1, f0) && Untouched(m1, m2, f2)
    ensures Untouched(m0, m2, f0 + f2)
  {
  }

  lemma TouchedAnyway(m0: map<nat, Page>, m1: map<nat, Page>, f0: seq<nat>, f1: seq<nat>)
    requires Untouched(m0, m1, f0)
    ensures Untouched(m0, m1, f0 + f1)
  {
  }

  lemma NothingLost(free: seq<nat>, tabs: Tabs)
    ensures Accounted(free, tabs, free, tabs, [])
  {
  }

  lemma SizesInPages(oldsz: nat, newsz: nat)
    requires oldsz <= newsz < KERNBASE
    ensures PagesUp(oldsz) <= PagesUp(newsz) <= NPAGES
  {
  }

  lemma InPages(a: nat, newsz: nat)
    requires a * PGSIZE < newsz < KERNBASE
    ensures a < PagesUp(newsz) <= NPAGES
  {
  }

  lemma PastEnd(a: nat, end: nat, newsz: nat)
    requires end == PagesUp(newsz) && a <= end && a * PGSIZE >= newsz
    ensures a == end
  {
  }

  lemma GrowStarts(t0: Tabs, f0: seq<nat>, mem: map<nat, Page>, a0: nat)
    ensures Reached(t0, f0, t0, f0, mem, [], a0, a0, false)
  {
  }

  /** kalloc fails: the frames did not even suffice for all pages but a last one without table. */
  lemma AllocStops(t0: Tabs, f0: seq<nat>, t: Tabs, free: seq<nat>, mem: map<nat, Page>, lost: seq<nat>, a0: nat, a: nat, end: nat, missed: bool)
    requires Reached(t0, f0, t, free, mem, lost, a0, a, missed) && free == [] && a0 <= a < end
    ensures |f0| < Wants(t0, a0, end) && !(|f0| + 1 == Wants(t0, a0, end) && NewTable(t0, a0, end - 1))
    ensures |lost| <= 1
  {
    hide Growing, NewTable;
    WantsGrow(t0, a0, a, end);
    WantsGrow(t0, a0, a, end - 1);
  }

  lemma AfterWalk(t0: Tabs, f0: seq<nat>, t: Tabs, mem: map<nat, Page>, lost: seq<nat>, a0: nat, a: nat, end: nat, missed: bool, t': Tabs, mem': map<nat, Page>, newsz: nat)
    requires Reached(t0, f0, t, [], mem, lost, a0, a, missed) && a0 <= a < end && t' == Sweep(t, a0, end) && |lost| <= 1
    requires |f0| < Wants(t0, a0, end) && !(|f0| + 1 == Wants(t0, a0, end) && NewTable(t0, a0, end - 1))
    ensures Grew(t0, f0, t', mem', Returned(0), newsz, a0, end, lost)
  {
    hide Growing, NewTable, Sweep;
    if forall v :: a0 <= v < end ==> !Mapped(t0, v) {
      forall v: nat ensures SameAt(t0, t', v) {
        Undone(t0, t, mem, a0, if missed then a - 1 else a, end, v);
      }
    }
  }

  lemma AccountedWalk(f0: seq<nat>, t0: Tabs, f1: seq<nat>, t1: Tabs, f2: seq<nat>, t2: Tabs, lost: seq<nat>)
    requires Accounted(f0, t0, f1, t1, lost) && forall g: nat :: Total(f2, t2, g) == Total(f1, t1, g)
    ensures Accounted(f0, t0, f2, t2, lost)
  {
    forall g: nat ensures Total(f2, t2, g) + multiset(lost)[g] == Total(f0, t0, g) {
      assert Total(f1, t1, g) + multiset(lost)[g] == Total(f0, t0, g);
    }
  }

  lemma GrowingMem(t0: Tabs, t: Tabs, m: map<nat, Page>, m': map<nat, Page>, free: seq<nat>, a0: nat, a: nat)
    requires Growing(t0, t, m, a0, a) && a <= NPAGES && Exclusive(free, map[], t) && Untouched(m, m', free)
    ensures Growing(t0, t, m', a0, a)
  {
    hide Mapped, At, Uses, Filled;
    forall v | a0 <= v < a ensures At(t, v).frame in m' && m'[At(t, v).frame] == Filled(0) {
      NotFree(free, map[], t, v);
    }
  }

  lemma AllocGoes(t0: Tabs, f0: seq<nat>, t1: Tabs, t2: Tabs, f1: seq<nat>, f2: seq<nat>, m1: map<nat, Page>, m2: map<nat, Page>,
                  lost: seq<nat>, l: seq<nat>, a0: nat, a: nat, missed: bool, o: PageOutcome, f: nat)
    requires Reached(t0, f0, t1, f1, m1, lost, a0, a, missed) && a0 <= a < NPAGES && Exclusive(f1, map[], t1) && f1 != [] && !o.NoFrame?
    requires o.Remapped? <==> Mapped(t1, a)
    requires o.NoTable? <==> |f1| == 1 && a / NPT !in t1
    requires !o.Got? ==> t2 == t1 && f1 == l + f2 && |l| == 1
    requires o.Got? ==>
               && Entered(t1, t2, a, Pte(f, USER_RW)) && f in m2 && m2[f] == Filled(0) && l == []
               && |f2| == |f1| - 1 - One(a / NPT !in t1)
    requires Untouched(m1, m2, f1)
    ensures !missed && lost == []
    ensures o.Remapped? ==> Mapped(t0, a)
    ensures !o.Remapped? ==> Reached(t0, f0, t2, f2, m2, l, a0, a + 1, o.NoTable?)
  {
    hide Growing, Entered, Untouched, Exclusive, Mapped, Filled;
    GrowingNext(t0, t1, m1, a0, a);
    assert Wants(t0, a0, a + 1) == Wants(t0, a0, a) + 1 + One(NewTable(t0, a0, a));
    if o.Got? {
      GrowingStep(t0, t1, t2, m1, m2, f1, a0, a, f);
    } else if o.NoTable? {
      GrowingMem(t0, t1, m1, m2, f1, a0, a);
    }
  }

  lemma ExclusiveOn(f1: seq<nat>, t1: Tabs, f2: seq<nat>, t2: Tabs, lost: seq<nat>)
    requires Exclusive(f1, map[], t1) && Accounted(f1, t1, f2, t2, lost)
    ensures Exclusive(f2, map[], t2)
  {
    hide Uses;
    forall g: nat ensures multiset(f2)[g] + Uses(map[], g) + Uses(t2, g) <= 1 {
      assert multiset(f1)[g] + Uses(map[], g) + Uses(t1, g) <= 1;
      assert Total(f2, t2, g) + multiset(lost)[g] == Total(f1, t1, g);
    }
  }

  lemma GrewPanic(t0: Tabs, f0: seq<nat>, t: Tabs, mem: map<nat, Page>, newsz: nat, a0: nat, a: nat, end: nat, lost: seq<nat>)
    requires a0 <= a < end && Mapped(t0, a)
    ensures Grew(t0, f0, t, mem, RemapPanic, newsz, a0, end, lost)
  {
  }

  lemma AllocEnds(t0: Tabs, f0: seq<nat>, t: Tabs, free: seq<nat>, mem: map<nat, Page>, lost: seq<nat>, a0: nat, end: nat, missed: bool, newsz: nat)
    requires Reached(t0, f0, t, free, mem, lost, a0, end, missed) && a0 <= end
    ensures Grew(t0, f0, t, mem, Returned(newsz), newsz, a0, end, lost)
  {
    hide Growing, NewTable;
  }

  // ---- copyout ----

  /** PTE_U */
  predicate UserPage(tabs: Tabs, v: nat) {
    Mapped(tabs, v) && At(tabs, v).flags / 4 % 2 == 1
  }

  ghost predicate Pages(tabs: Tabs, mem: map<nat, Page>) {
    forall v :: 0 <= v && Mapped(tabs, v) ==> At(tabs, v).frame in mem && |mem[At(tabs, v).frame]| == PGSIZE
  }

  /** The byte at a user address. */
  ghost function ByteAt(tabs: Tabs, mem: map<nat, Page>, a: nat): (x: int)
    requires Pages(tabs, mem) && Mapped(tabs, a / PGSIZE)
  {
    mem[At(tabs, a / PGSIZE).frame][a % PGSIZE]
  }

  /** src stands at va, and every other byte of the address space is as before. */
  ghost predicate WrittenAt(tabs: Tabs, m: map<nat, Page>, m': map<nat, Page>, va: nat, src: seq<int>)
    requires Pages(tabs, m)
  {
    && Pages(tabs, m')
    && forall a :: 0 <= a && Mapped(tabs, a / PGSIZE) ==>
         ByteAt(tabs, m', a) == if va <= a < va + |src| then src[a - va] else ByteAt(tabs, m, a)
  }

  function Overlay(p: Page, o: nat, src: seq<int>): (q: Page)
    requires o + |src| <= |p|
    ensures |q| == |p|
  {
    p[..o] + src + p[o + |src|..]
  }

  datatype CopyResult = Ok | Refused | Fault

  lemma OnePage(tabs: Tabs, m: map<nat, Page>, va: nat, src: seq<int>, a: nat)
    requires Pages(tabs, m) && va % PGSIZE + |src| <= PGSIZE && Mapped(tabs, va / PGSIZE) && Mapped(tabs, a / PGSIZE)
    requires a / PGSIZE != va / PGSIZE ==> At(tabs, a / PGSIZE).frame != At(tabs, va / PGSIZE).frame
    ensures var f := At(tabs, va / PGSIZE).frame;
            var m' := m[f := Overlay(m[f], va % PGSIZE, src)];
            && At(tabs, a / PGSIZE).frame in m' && a % PGSIZE < |m'[At(tabs, a / PGSIZE).frame]|
            && m'[At(tabs, a / PGSIZE).frame][a % PGSIZE] == if va <= a < va + |src| then src[a - va] else ByteAt(tabs, m, a)
  {
    hide Mapped, At;
    if a / PGSIZE == va / PGSIZE {
      assert a - va == a % PGSIZE - va % PGSIZE;
    }
  }

  lemma PageWritten(tabs: Tabs, m: map<nat, Page>, va: nat, src: seq<int>)
    requires Pages(tabs, m) && va % PGSIZE + |src| <= PGSIZE && Mapped(tabs, va / PGSIZE) && Distinct(tabs)
    ensures var f := At(tabs, va / PGSIZE).frame;
            WrittenAt(tabs, m, m[f := Overlay(m[f], va % PGSIZE, src)], va, src)
  {
    hide Mapped, At, Overlay;
    var f := At(tabs, va / PGSIZE).frame;
    var m' := m[f := Overlay(m[f], va % PGSIZE, src)];
    forall a: nat | Mapped(tabs, a / PGSIZE)
      ensures ByteAt(tabs, m', a) == if va <= a < va + |src| then src[a - va] else ByteAt(tabs, m, a)
    {
      OnePage(tabs, m, va, src, a);
    }
  }

  /** No two pages share a frame. */
  ghost predicate Distinct(tabs: Tabs) {
    forall u, v :: 0 <= u < v && Mapped(tabs, u) && Mapped(tabs, v) ==> At(tabs, u).frame != At(tabs, v).frame
  }

  lemma WrittenOn(tabs: Tabs, m0: map<nat, Page>, m1: map<nat, Page>, m2: map<nat, Page>, va: nat, s: seq<int>, t: seq<int>)
    requires Pages(tabs, m0) && WrittenAt(tabs, m0, m1, va, s) && WrittenAt(tabs, m1, m2, va + |s|, t)
    ensures WrittenAt(tabs, m0, m2, va, s + t)
  {
    hide Mapped, ByteAt;
  }

  /** copyout into the user half: the bytes go to user pages one page at a time, up to the first page that
      is not present or not the user's; a page without page table is dereferenced through a null entry. */
  method Copyout(m: Machine, sp: Space, va: nat, p: seq<int>) returns (r: CopyResult, k: nat)
    requires va + |p| <= KERNBASE && Pages(sp.tabs, m.mem) && Distinct(sp.tabs)
    modifies m`mem
    ensures k <= |p| && WrittenAt(sp.tabs, old(m.mem), m.mem, va, p[..k])
    ensures r.Ok? <==> k == |p|
    ensures forall a :: va <= a < va + k ==> UserPage(sp.tabs, a / PGSIZE)
    ensures !r.Ok? ==> !UserPage(sp.tabs, (va + k) / PGSIZE) && (r.Fault? <==> (va + k) / PGSIZE / NPT !in sp.tabs)
  {
    hide Mapped, At, WrittenAt, Distinct, Overlay, UserPage;
    ghost var m0 := m.mem;
    k := 0;
    WrittenNothing(sp.tabs, m0, va);
    while k < |p|
      invariant k <= |p| && Pages(sp.tabs, m.mem) && WrittenAt(sp.tabs, m0, m.mem, va, p[..k])
      invariant forall a :: va <= a < va + k ==> UserPage(sp.tabs, a / PGSIZE)
    {
      var v, o := (va + k) / PGSIZE, (va + k) % PGSIZE;
      if v / NPT !in sp.tabs {
        NoUserPage(sp.tabs, v);
        return Fault, k;
      }
      if !(v % NPT in sp.tabs[v / NPT].ptes && sp.tabs[v / NPT].ptes[v % NPT].flags / 4 % 2 == 1) {
        NoUserPage(sp.tabs, v);
        return Refused, k;
      }
      IsUserPage(sp.tabs, v);
      var n := if PGSIZE - o > |p| - k then |p| - k else PGSIZE - o;
      var f := sp.tabs[v / NPT].ptes[v % NPT].frame;
      ghost var m1 := m.mem;
      PageWritten(sp.tabs, m.mem, va + k, p[k..k + n]);
      m.mem := m.mem[f := Overlay(m.mem[f], o, p[k..k + n])];
      assert p[..k] + p[k..k + n] == p[..k + n];
      WrittenOn(sp.tabs, m0, m1, m.mem, va, p[..k], p[k..k + n]);
      WrittenPages(sp.tabs, m0, m.mem, va, p[..k + n]);
      SamePage(va + k, n);
      k := k + n;
    }
    return Ok, k;
  }

  lemma SamePage(at: nat, n: nat)
    requires at % PGSIZE + n <= PGSIZE
    ensures forall a :: at <= a < at + n ==> a / PGSIZE == at / PGSIZE
  {
  }

  lemma WrittenNothing(tabs: Tabs, m: map<nat, Page>, va: nat)
    requires Pages(tabs, m)
    ensures WrittenAt(tabs, m, m, va, [])
  {
  }

  lemma WrittenPages(tabs: Tabs, m: map<nat, Page>, m': map<nat, Page>, va: nat, s: seq<int>)
    requires Pages(tabs, m) && WrittenAt(tabs, m, m', va, s)
    ensures Pages(tabs, m')
  {
  }

  lemma NoUserPage(tabs: Tabs, v: nat)
    requires v / NPT !in tabs || !(v % NPT in tabs[v / NPT].ptes && tabs[v / NPT].ptes[v % NPT].flags / 4 % 2 == 1)
    ensures !UserPage(tabs, v)
  {
  }

  lemma IsUserPage(tabs: Tabs, v: nat)
    requires v / NPT in tabs && v % NPT in tabs[v / NPT].ptes && tabs[v / NPT].ptes[v % NPT].flags / 4 % 2 == 1
    ensures UserPage(tabs, v) && Mapped(tabs, v) && At(tabs, v) == tabs[v / NPT].ptes[v % NPT]
  {
  }

  // ---- growing and then writing ----

  /** PTE_W */
  predicate WritablePage(tabs: Tabs, v: nat) {
    Mapped(tabs, v) && At(tabs, v).flags / 2 % 2 == 1
  }

  /** The pages allocuvm adds are new, the user's and writable. */
  lemma GrownUser(t0: Tabs, t: Tabs, mem: map<nat, Page>, a0: nat, end: nat)
    requires Growing(t0, t, mem, a0, end)
    ensures forall v :: a0 <= v < end ==> UserPage(t, v) && WritablePage(t, v) && !Mapped(t0, v)
  {
  }

  lemma ExclusiveDistinct(free: seq<nat>, t: Tabs, lo: nat, hi: nat)
    requires Exclusive(free, map[], t) && Ranges(t, lo, hi)
    ensures Distinct(t)
  {
    hide TabUses, PageUses;
    forall u, v | 0 <= u < v && Mapped(t, u) && Mapped(t, v) ensures At(t, u).frame != At(t, v).frame {
      MappedBelow(t, v, lo, hi);
      var f := At(t, v).frame;
      assert multiset(free)[f] + Uses(map[], f) + Uses(t, f) <= 1;
      PagesApart(t, u, v, NPAGES);
    }
  }

  lemma MappedBelow(t: Tabs, v: nat, lo: nat, hi: nat)
    requires Ranges(t, lo, hi) && Mapped(t, v)
    ensures v < NPAGES
  {
  }

  /** Old pages keep their frames and contents, and new ones are pages of zeros. */
  lemma PagesGrown(free: seq<nat>, t0: Tabs, m0: map<nat, Page>, t: Tabs, m: map<nat, Page>, a0: nat, end: nat, lo: nat, hi: nat)
    requires Exclusive(free, map[], t0) && Ranges(t0, lo, hi) && Pages(t0, m0) && Growing(t0, t, m, a0, end) && Untouched(m0, m, free)
    ensures Pages(t, m)
    ensures forall a: nat :: Mapped(t0, a / PGSIZE) ==> Mapped(t, a / PGSIZE) && ByteAt(t, m, a) == ByteAt(t0, m0, a)
    ensures forall a: nat :: a0 <= a / PGSIZE < end ==> Mapped(t, a / PGSIZE) && ByteAt(t, m, a) == 0
  {
    hide Uses, Mapped, At, Exclusive, Ranges;
    forall v: nat | Mapped(t, v) ensures At(t, v).frame in m && |m[At(t, v).frame]| == PGSIZE {
      if !(a0 <= v < end) {
        OldPage(free, t0, m0, t, m, a0, end, lo, hi, v);
      }
    }
    forall a: nat | Mapped(t0, a / PGSIZE) ensures Mapped(t, a / PGSIZE) && ByteAt(t, m, a) == ByteAt(t0, m0, a) {
      OldPage(free, t0, m0, t, m, a0, end, lo, hi, a / PGSIZE);
    }
  }

  lemma OldPage(free: seq<nat>, t0: Tabs, m0: map<nat, Page>, t: Tabs, m: map<nat, Page>, a0: nat, end: nat, lo: nat, hi: nat, v: nat)
    requires Exclusive(free, map[], t0) && Ranges(t0, lo, hi) && Pages(t0, m0) && Growing(t0, t, m, a0, end) && Untouched(m0, m, free)
    requires Mapped(t0, v) || (Mapped(t, v) && !(a0 <= v < end))
    ensures Mapped(t0, v) && Mapped(t, v) && At(t, v) == At(t0, v) && At(t, v).frame in m0 && At(t, v).frame in m && m[At(t, v).frame] == m0[At(t, v).frame]
  {
    hide Uses, Exclusive;
    assert !(a0 <= v < end);
    assert SameAt(t0, t, v);
    MappedBelow(t0, v, lo, hi);
    NotFree(free, map[], t0, v);
  }

  /** allocuvm with frames enough and then copyout inside the new pages: it succeeds, the bytes can be read back,
      the rest of the new pages is zero, and the old pages are as before. */
  method GrowThenCopyout(m: Machine, sp: Space, oldsz: nat, newsz: nat, va: nat, p: seq<int>) returns (g: GrowResult, r: CopyResult)
    requires m.Valid() && sp.In(m.lo, m.hi) && Exclusive(m.free, map[], sp.tabs) && Pages(sp.tabs, m.mem)
    requires oldsz <= newsz < KERNBASE && PagesUp(oldsz) <= PagesUp(newsz) && |m.free| >= Wants(sp.tabs, PagesUp(oldsz), PagesUp(newsz))
    requires PagesUp(oldsz) * PGSIZE <= va && va + |p| <= newsz
    modifies m, sp`tabs
    ensures !g.RemapPanic? ==>
              && g == Returned(newsz) && r.Ok? && Pages(sp.tabs, m.mem)
              && (forall a: nat :: PagesUp(oldsz) <= a / PGSIZE < PagesUp(newsz) ==>
                    Mapped(sp.tabs, a / PGSIZE) && ByteAt(sp.tabs, m.mem, a) == if va <= a < va + |p| then p[a - va] else 0)
              && (forall a: nat :: Mapped(old(sp.tabs), a / PGSIZE) ==>
                    Mapped(sp.tabs, a / PGSIZE) && ByteAt(sp.tabs, m.mem, a) == ByteAt(old(sp.tabs), old(m.mem), a))
  {
    hide Ranges, Uses, Total, Growing, Exclusive, Wants, Accounted, Mapped, At, Distinct, Untouched, UserPage, PagesUp;
    ghost var t0, f0, m0 := sp.tabs, m.free, m.mem;
    ghost var a0, end := PagesUp(oldsz), PagesUp(newsz);
    ghost var lost;
    g, lost := Allocuvm(m, sp, oldsz, newsz);
    r := Fault;
    if g.RemapPanic? {
      return;
    }
    ExclusiveOn(f0, t0, m.free, sp.tabs, lost);
    ExclusiveDistinct(m.free, sp.tabs, m.lo, m.hi);
    GrownUser(t0, sp.tabs, m.mem, a0, end);
    PagesGrown(f0, t0, m0, sp.tabs, m.mem, a0, end, m.lo, m.hi);
    var k;
    r, k := Copyout(m, sp, va, p);
    InGrown(va, |p|, k, a0, newsz, end);
    assert p[..|p|] == p;
    forall a: nat | Mapped(t0, a / PGSIZE) ensures Mapped(sp.tabs, a / PGSIZE) && ByteAt(sp.tabs, m.mem, a) == ByteAt(t0, m0, a) {
      InGrown(va, |p|, a - va, a0, newsz, end);
    }
  }

  lemma InGrown(va: nat, n: nat, k: int, a0: nat, newsz: nat, end: nat)
    requires a0 * PGSIZE <= va && va + n <= newsz && end == PagesUp(newsz)
    ensures 0 <= k < n ==> a0 <= (va + k) / PGSIZE < end
  {
  }
}
