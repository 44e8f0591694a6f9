/**
Physical page frames and user address spaces (kalloc.c, vm.c).  Frames are page
numbers; the allocator's free list is the sequence of frames from its head on.
*/
module Vm {
  import opened VmTables

  const PGSIZE: nat := 4096
  const KERNBASE: nat := 0x8000_0000
  /** Page-table pages setupkvm needs: 0 to PHYSTOP, and the device space, in 4 MB regions. */
  const KTABLES: nat := 64

  type Page = seq<int>

  function Filled(x: int): (p: Page) {
    seq(PGSIZE, _ => x)
  }

  /** PGROUNDUP, in pages. */
  function PagesUp(n: nat): (p: nat) {
    (n + PGSIZE - 1) / PGSIZE
  }

  datatype Option<T> = None | Some(v: T)
  datatype MapOutcome = AllMapped | NoMemory | Remap

  function Within(f: nat, a: nat, b: nat): (k: nat) {
    if a <= f < b then 1 else 0
  }

  /** Free frames and frames in use, together. */
  ghost function Total(free: seq<nat>, tabs: Tabs, f: nat): (k: nat) {
    multiset(free)[f] + Uses(tabs, f)
  }

  ghost predicate Ranges(tabs: Tabs, lo: nat, hi: nat) {
    && (forall r :: r in tabs ==> r < NUSER && lo <= tabs[r].frame < hi)
    && (forall r, k :: r in tabs && k in tabs[r].ptes ==> k < NPT && lo <= tabs[r].ptes[k].frame < hi)
  }

  class Space {
    const dir: nat
    /** Frames of the page-table pages of the kernel half. */
    const kern: seq<nat>
    var tabs: Tabs

    constructor (dir: nat, kern: seq<nat>)
      ensures this.dir == dir && this.kern == kern && tabs == map[]
    {
      this.dir, this.kern, tabs := dir, kern, map[];
    }

    ghost predicate In(lo: nat, hi: nat)
      reads this
    {
      lo <= dir < hi && (forall i :: 0 <= i < |kern| ==> lo <= kern[i] < hi) && Ranges(tabs, lo, hi)
    }

    /** How often this address space uses frame f. */
    ghost function Owns(f: nat): (k: nat)
      reads this
    {
      One(dir == f) + multiset(kern)[f] + Uses(tabs, f)
    }
  }

  class Machine {
    var free: seq<nat>
    var mem: map<nat, Page>
    /** The frames from `end` to PHYSTOP. */
    const lo: nat
    const hi: nat

    ghost predicate Valid()
      reads this
    {
      0 < lo && (forall i :: 0 <= i < |free| ==> lo <= free[i] < hi) && (forall f :: lo <= f < hi ==> f in mem)
    }

    /** The machine at boot, before any frame is given to the free list. */
    constructor (lo: nat, hi: nat, mem: map<nat, Page>)
      requires 0 < lo && forall f :: lo <= f < hi ==> f in mem
      ensures Valid() && this.lo == lo && this.hi == hi && this.mem == mem && free == []
    {
      this.lo, this.hi, this.mem, free := lo, hi, mem, [];
    }

    /** kfree: the frame goes to the head of the free list and is filled with junk. */
    method Kfree(f: nat)
      requires Valid() && lo <= f < hi
      modifies this
      ensures Valid() && free == [f] + old(free) && mem == old(mem)[f := Filled(1)]
    {
      mem := mem[f := Filled(1)];
      free := [f] + free;
    }

    /** kalloc */
    method Kalloc() returns (r: Option<nat>)
      requires Valid()
      modifies this`free
      ensures Valid()
      ensures r.None? <==> old(free) == []
      ensures r.None? ==> free == []
      ensures r.Some? ==> lo <= r.v < hi && old(free) == [r.v] + free
    {
      if free == [] {
        return None;
      }
      r := Some(free[0]);
      free := free[1..];
    }

    /** freerange over the frames from a up to b. */
    method Freerange(a: nat, b: nat)
      requires Valid() && lo <= a && b <= hi
      modifies this
      ensures Valid()
      ensures forall f: nat :: multiset(free)[f] == multiset(old(free))[f] + Within(f, a, b)
    {
      var p := a;
      while p < b
        invariant a <= p && (p <= b || p == a) && Valid()
        invariant forall f: nat :: multiset(free)[f] == multiset(old(free))[f] + Within(f, a, p)
      {
        Kfree(p);
        p := p + 1;
      }
      assert forall f: nat :: Within(f, a, p) == Within(f, a, b);
    }

    /** walkpgdir with alloc set. */
    method WalkAlloc(sp: Space, v: nat) returns (ok: bool)
      requires Valid() && sp.In(lo, hi) && v < NPAGES
      modifies this, sp`tabs
      ensures Valid() && sp.In(lo, hi)
      ensures ok <==> v / NPT in old(sp.tabs) || old(free) != []
      ensures v / NPT in old(sp.tabs) || !ok ==> sp.tabs == old(sp.tabs) && free == old(free) && mem == old(mem)
      ensures v / NPT !in old(sp.tabs) && ok ==> sp.tabs == AddTab(old(sp.tabs), v / NPT, old(free)[0]) && old(free) == [old(free)[0]] + free && mem == old(mem)[old(free)[0] := Filled(0)]
    {
      if v / NPT in sp.tabs {
        return true;
      }
      var t := Kalloc();
      if t.None? {
        return false;
      }
      mem := mem[t.v := Filled(0)];
      sp.tabs := AddTab(sp.tabs, v / NPT, t.v);
      return true;
    }

    /** One turn of mappages. */
    method MapOne(sp: Space, v: nat, f: nat, flags: nat) returns (o: MapOutcome)
      requires Valid() && sp.In(lo, hi) && v < NPAGES && lo <= f < hi
      modifies this, sp`tabs
      ensures Valid() && sp.In(lo, hi)
      ensures o.NoMemory? <==> v / NPT !in old(sp.tabs) && old(free) == []
      ensures o.Remap? <==> Mapped(old(sp.tabs), v)
      ensures !o.AllMapped? ==> sp.tabs == old(sp.tabs) && free == old(free) && mem == old(mem)
      ensures o.AllMapped? ==> Entered(old(sp.tabs), sp.tabs, v, Pte(f, flags)) && |free| == |old(free)| - One(v / NPT !in old(sp.tabs))
      ensures forall g: nat :: Total(free, sp.tabs, g) == Total(old(free), old(sp.tabs), g) + One(o.AllMapped? && g == f)
      ensures Untouched(old(mem), mem, old(free)) && forall g :: g in free ==> g in old(free)
    {
      hide Ranges, Uses;
      ghost var t0, f0 := sp.tabs, free;
      var ok := WalkAlloc(sp, v);
      if !ok {
        return NoMemory;
      }
      if v % NPT in sp.tabs[v / NPT].ptes {
        WalkSame(t0, sp.tabs, v, f0);
        return Remap;
      }
      ghost var t1 := sp.tabs;
      sp.tabs := Enter(sp.tabs, v, Pte(f, flags));
      EnterRanges(t1, v, Pte(f, flags), lo, hi);
      EnteredNow(t0, t1, v, Pte(f, flags), f0);
      forall g: nat ensures Total(free, sp.tabs, g) == Total(f0, t0, g) + One(g == f) {
        UsesEnter(t1, v, Pte(f, flags), g);
        if t1 != t0 { UsesAddTab(t0, v / NPT, f0[0], g); }
      }
      return AllMapped;
    }

    /** mappages over n pages from page v on, to the frames from f on. */
    method MapPages(sp: Space, v: nat, n: nat, f: nat, flags: nat) returns (o: MapOutcome, k: nat)
      requires Valid() && sp.In(lo, hi) && 0 < n && v + n <= NPAGES && lo <= f && f + n <= hi
      modifies this, sp`tabs
      ensures Valid() && sp.In(lo, hi) && k <= n && (o.AllMapped? <==> k == n)
      ensures MapsTo(old(sp.tabs), sp.tabs, v, k, f, flags)
      ensures o.Remap? ==> Mapped(old(sp.tabs), v + k)
      ensures o.NoMemory? ==> free == [] && (v + k) / NPT !in sp.tabs
      ensures forall g: nat :: Total(free, sp.tabs, g) == Total(old(free), old(sp.tabs), g) + Within(g, f, f + k)
    {
      hide Ranges, Uses, Total, Mapped, At;
      k := 0;
      forall g: nat ensures Within(g, f, f) == 0 {
      }
      while k < n
        invariant k <= n && Valid() && sp.In(lo, hi) && MapsTo(old(sp.tabs), sp.tabs, v, k, f, flags)
        invariant forall g: nat :: Total(free, sp.tabs, g) == Total(old(free), old(sp.tabs), g) + Within(g, f, f + k)
      {
        ghost var t1 := sp.tabs;
        assert SameAt(old(sp.tabs), t1, v + k);
        o := MapOne(sp, v + k, f + k, flags);
        if !o.AllMapped? {
          return;
        }
        MapsStep(old(sp.tabs), t1, sp.tabs, v, k, f, flags);
        k := k + 1;
      }
      return AllMapped, k;
    }

    /** deallocuvm's loop body at a mapped page. */
    method FreePage(sp: Space, a: nat)
      requires Valid() && sp.In(lo, hi) && a < NPAGES && Mapped(sp.tabs, a)
      modifies this, sp`tabs
      ensures Valid() && sp.In(lo, hi) && sp.tabs == Clear(old(sp.tabs), a) && Untouched(old(mem), mem, free) && Kept(old(free), free)
      ensures forall g: nat :: Total(free, sp.tabs, g) == Total(old(free), old(sp.tabs), g)
    {
      hide Ranges, Uses;
      ghost var t0 := sp.tabs;
      PageInRange(sp.tabs, a, lo, hi);
      Kfree(sp.tabs[a / NPT].ptes[a % NPT].frame);
      sp.tabs := Clear(sp.tabs, a);
      ClearRanges(t0, a, lo, hi);
      forall g: nat ensures Total(free, sp.tabs, g) == Total(old(free), t0, g) {
        UsesClear(t0, a, g);
      }
    }

    /** deallocuvm */
    method Deallocuvm(sp: Space, oldsz: nat, newsz: nat) returns (r: nat)
      requires Valid() && sp.In(lo, hi) && oldsz <= KERNBASE
      modifies this, sp`tabs
      ensures Valid() && sp.In(lo, hi) && r == if newsz >= oldsz then oldsz else newsz
      ensures sp.tabs == if newsz >= oldsz then old(sp.tabs) else Sweep(old(sp.tabs), PagesUp(newsz), PagesUp(oldsz))
      ensures forall g: nat :: Total(free, sp.tabs, g) == Total(old(free), old(sp.tabs), g)
      ensures Untouched(old(mem), mem, free) && Kept(old(free), free)
    {
      hide Ranges, Uses, Total;
      if newsz >= oldsz {
        return oldsz;
      }
      var a := PagesUp(newsz);
      ghost var end := PagesUp(oldsz);
      while a * PGSIZE < oldsz
        invariant Valid() && sp.In(lo, hi) && Sweep(sp.tabs, a, end) == Sweep(old(sp.tabs), PagesUp(newsz), end)
        invariant forall g: nat :: Total(free, sp.tabs, g) == Total(old(free), old(sp.tabs), g)
        invariant Untouched(old(mem), mem, free) && Kept(old(free), free)
        decreases oldsz - a
      {
        if a / NPT !in sp.tabs {
          a := a + (NPT - 1);
        } else if a % NPT in sp.tabs[a / NPT].ptes {
          FreePage(sp, a);
        } else {
          ClearAbsent(sp.tabs, a);
        }
        a := a + 1;
      }
      return newsz;
    }

    /** The page-table pages of the user half go back. */
    method FreeTables(sp: Space)
      requires Valid() && sp.In(lo, hi)
      modifies this
      ensures Valid()
      ensures forall g: nat :: multiset(free)[g] == multiset(old(free))[g] + TabUses(sp.tabs, NUSER, g)
      ensures Untouched(old(mem), mem, free) && Kept(old(free), free)
    {
      var i := 0;
      while i < NUSER
        invariant i <= NUSER && Valid()
        invariant forall g: nat :: multiset(free)[g] == multiset(old(free))[g] + TabUses(sp.tabs, i, g)
        invariant Untouched(old(mem), mem, free) && Kept(old(free), free)
      {
        if i in sp.tabs {
          Kfree(sp.tabs[i].frame);
        }
        i := i + 1;
      }
    }

    method FreeAll(fs: seq<nat>)
      requires Valid() && forall i :: 0 <= i < |fs| ==> lo <= fs[i] < hi
      modifies this
      ensures Valid() && multiset(free) == multiset(old(free)) + multiset(fs)
      ensures Untouched(old(mem), mem, free) && Kept(old(free), free)
    {
      var i := 0;
      while i < |fs|
        invariant i <= |fs| && Valid() && multiset(free) == multiset(old(free)) + multiset(fs[..i])
        invariant Untouched(old(mem), mem, free) && Kept(old(free), free)
      {
        Kfree(fs[i]);
        assert fs[..i + 1] == fs[..i] + [fs[i]];
        i := i + 1;
      }
      assert fs[..|fs|] == fs;
    }

    /** freevm: every frame the address space used is free again. */
    method Freevm(sp: Space)
      requires Valid() && sp.In(lo, hi)
      modifies this, sp`tabs
      ensures Valid() && Untouched(old(mem), mem, free)
      ensures forall g: nat :: multiset(free)[g] == multiset(old(free))[g] + old(sp.Owns(g))
    {
      hide Ranges, PageUses, TabUses, Untouched, Kept;
      ghost var t0, f0, m0 := sp.tabs, free, mem;
      var r := Deallocuvm(sp, KERNBASE, 0);
      ghost var t1, f1, m1 := sp.tabs, free, mem;
      SweptClean(t0, t1);
      FreeTables(sp);
      UntouchedOn(m0, m1, mem, f1, free);
      ghost var f2, m2 := free, mem;
      FreeAll(sp.kern);
      UntouchedOn(m0, m2, mem, f2, free);
      ghost var f3, m3 := free, mem;
      Kfree(sp.dir);
      UntouchedFreed(m0, m3, f3, sp.dir);
      forall g: nat ensures multiset(free)[g] == multiset(old(free))[g] + old(sp.Owns(g)) {
        assert Total(f1, t1, g) == Total(f0, t0, g);
      }
    }

    /** setupkvm, as far as frames go: the directory and the page-table pages of the kernel half. */
    method Setupkvm() returns (r: Option<Space>)
      requires Valid()
      modifies this
      ensures Valid()
      ensures r.None? <==> |old(free)| < 1 + KTABLES
      ensures r.None? ==> free == []
      ensures r.Some? ==>
                && fresh(r.v) && r.v.In(lo, hi) && r.v.tabs == map[] && |r.v.kern| == KTABLES
                && Spent(old(free), r.v.dir, r.v.kern, free)
      ensures Untouched(old(mem), mem, old(free))
    {
      var d := Kalloc();
      if d.None? {
        return None;
      }
      mem := mem[d.v := Filled(0)];
      var kern: seq<nat> := [];
      while |kern| < KTABLES
        invariant |kern| <= KTABLES && Valid() && old(free) == [d.v] + kern + free
        invariant forall i :: 0 <= i < |kern| ==> lo <= kern[i] < hi
        invariant Untouched(old(mem), mem, old(free))
        decreases KTABLES - |kern|
      {
        var t := Kalloc();
        if t.None? {
          return None;
        }
        mem := mem[t.v := Filled(0)];
        kern := kern + [t.v];
      }
      var sp := new Space(d.v, kern);
      return Some(sp);
    }

    /** One turn of copyuvm's loop. */
    method CopyPage(sp: Space, d: Space, i: nat) returns (ok: bool, ghost lost: seq<nat>)
      requires Valid() && d.In(lo, hi) && sp.In(lo, hi) && sp != d && i < NPAGES && Mapped(sp.tabs, i)
      requires Copying(sp.tabs, d.tabs, mem, i) && Exclusive(free, d.tabs, sp.tabs)
      modifies this, d`tabs
      ensures Valid() && d.In(lo, hi)
      ensures ok <==> |old(free)| >= 1 + One(i % NPT == 0)
      ensures ok ==> Copying(sp.tabs, d.tabs, mem, i + 1) && |free| == |old(free)| - 1 - One(i % NPT == 0) && lost == []
      ensures !ok ==> d.tabs == old(d.tabs) && old(free) == lost + free && |lost| == One(old(free) != [])
      ensures forall g: nat :: Total(free, d.tabs, g) + multiset(lost)[g] == Total(old(free), old(d.tabs), g)
      ensures Untouched(old(mem), mem, old(free)) && forall g :: g in free ==> g in old(free)
    {
      hide Ranges, Uses, Copying, Entered;
      ghost var f0, m0, t0 := free, mem, d.tabs;
      NextRegion(sp.tabs, d.tabs, mem, i);
      var g := Kalloc();
      if g.None? {
        return false, [];
      }
      PageInRange(sp.tabs, i, lo, hi);
      var p := At(sp.tabs, i);
      mem := mem[g.v := mem[p.frame]];
      ghost var f1, m1 := free, mem;
      var o := MapOne(d, i, g.v, p.flags);
      if !o.AllMapped? {
        return false, [g.v];
      }
      CopyStep(sp.tabs, t0, d.tabs, m0, m1, mem, f0, f1, i, g.v);
      return true, [];
    }

    /** copyuvm's loop, into an address space with an empty user half. */
    method CopyLoop(sp: Space, d: Space, n: nat) returns (o: LoopOutcome, ghost lost: seq<nat>)
      requires Valid() && d.In(lo, hi) && sp.In(lo, hi) && sp != d && n <= NPAGES && d.tabs == map[]
      requires Copying(sp.tabs, map[], mem, 0) && Exclusive(free, map[], sp.tabs)
      modifies this, d`tabs
      ensures Valid() && d.In(lo, hi)
      ensures o.Done? ==> Copying(sp.tabs, d.tabs, mem, n) && |old(free)| >= Need(n)
      ensures o.Absent? ==> exists v :: 0 <= v < n && !Mapped(sp.tabs, v)
      ensures o.Short? ==> |old(free)| < Need(n)
      ensures |lost| == One(o.Short? && |old(free)| % (NPT + 1) == 1)
      ensures Balanced(old(free), free, d.tabs, lost) && Untouched(old(mem), mem, old(free))
    {
      hide Ranges, Uses, Copying, Mapped, Total, Exclusive, Untouched, Need;
      ghost var f1, m1 := free, mem;
      NothingTouched(mem, free);
      NeedNothing();
      var i := 0;
      lost := [];
      while i < n
        invariant i <= n && Valid() && d.In(lo, hi) && Copying(sp.tabs, d.tabs, mem, i) && Exclusive(free, d.tabs, sp.tabs)
        invariant |free| == |f1| - Need(i) && forall g :: g in free ==> g in f1
        invariant forall g: nat :: Total(free, d.tabs, g) == Total(f1, map[], g)
        invariant Untouched(m1, mem, f1)
      {
        if !(i / NPT in sp.tabs && i % NPT in sp.tabs[i / NPT].ptes) {
          NotThere(sp.tabs, i);
          return Absent, [];
        }
        There(sp.tabs, i);
        ghost var f2, t2, m2 := free, d.tabs, mem;
        NeedNext(i);
        var ok;
        ok, lost := CopyPage(sp, d, i);
        UntouchedTwice(m1, m2, mem, f1, f2);
        ExclusiveKept(f2, t2, free, d.tabs, sp.tabs, lost);
        if !ok {
          NeedFails(i, n, |f1|, |f2|);
          return Short, lost;
        }
        i := i + 1;
      }
      return Done, [];
    }

    /** copyuvm after setupkvm, which left the free list and the memory f0 and m0 as they are now. */
    method CopyInto(sp: Space, d: Space, n: nat, ghost f0: seq<nat>, ghost m0: map<nat, Page>) returns (r: CopyOutcome)
      requires Valid() && d.In(lo, hi) && sp.In(lo, hi) && sp != d && n <= NPAGES && d.tabs == map[]
      requires Copying(sp.tabs, map[], mem, 0) && Exclusive(free, map[], sp.tabs)
      requires SpentCounts(f0, d.dir, d.kern, free) && Subset(free, f0) && Untouched(m0, mem, f0)
      modifies this, d`tabs
      ensures Valid() && (!r.NotPresent? ==> Untouched(m0, mem, f0))
      ensures r.NotPresent? ==> exists v :: 0 <= v < n && !Mapped(sp.tabs, v)
      ensures r.OutOfMemory? ==> |old(free)| < Need(n) && GivenBack(f0, free, One(|old(free)| % (NPT + 1) == 1))
      ensures r.Copied? ==> r.d == d && |old(free)| >= Need(n) && d.In(lo, hi) && Copying(sp.tabs, d.tabs, mem, n)
      ensures r.Copied? ==> forall g: nat :: multiset(free)[g] + d.Owns(g) == multiset(f0)[g]
    {
      hide Ranges, Uses, Copying, Mapped, Total, Exclusive, Untouched, Need, GivenBack, SpentCounts, Balanced, Subset;
      ghost var f1, m1 := free, mem;
      var o, lost := CopyLoop(sp, d, n);
      UntouchedTwice(m0, m1, mem, f0, f1);
      match o
      case Absent =>
        return NotPresent;
      case Short =>
        ghost var f3, t3, m3 := free, d.tabs, mem;
        Freevm(d);
        LostExactly(f0, d.dir, d.kern, f1, f3, t3, free, lost);
        UntouchedTwice(m0, m3, mem, f0, free);
        return OutOfMemory;
      case Done =>
        CopyEnds(f0, d.dir, d.kern, f1, free, d.tabs);
        return Copied(d);
    }

    /** copyuvm of the first PagesUp(sz) pages.  On the way out after a failure one frame is lost exactly
        when the frames left after setupkvm were one more than a whole number of full 4 MB regions takes. */
    method Copyuvm(sp: Space, sz: nat) returns (r: CopyOutcome)
      requires Valid() && sp.In(lo, hi) && sz <= KERNBASE && Exclusive(free, map[], sp.tabs)
      modifies this
      ensures Valid() && sp.tabs == old(sp.tabs) && (!r.NotPresent? ==> Untouched(old(mem), mem, old(free)))
      ensures r.NotPresent? ==> exists v :: 0 <= v < PagesUp(sz) && !Mapped(sp.tabs, v)
      ensures r.OutOfMemory? ==> |old(free)| < 1 + KTABLES + Need(PagesUp(sz))
      ensures r.Copied? ==>
                && |old(free)| >= 1 + KTABLES + Need(PagesUp(sz))
                && fresh(r.d) && r.d.In(lo, hi) && Copying(sp.tabs, r.d.tabs, mem, PagesUp(sz))
                && forall g: nat :: multiset(free)[g] + r.d.Owns(g) == multiset(old(free))[g]
      ensures r.OutOfMemory? && |old(free)| < 1 + KTABLES ==> free == []
      ensures r.OutOfMemory? && |old(free)| >= 1 + KTABLES ==> GivenBack(old(free), free, One((|old(free)| - 1 - KTABLES) % (NPT + 1) == 1))
    {
      hide Ranges, Uses, Copying, Mapped, Total, Exclusive, Untouched, Need, GivenBack, PagesUp, Spent, SpentCounts, Balanced, Subset;
      ghost var f0, m0 := free, mem;
      var s := Setupkvm();
      if s.None? {
        return OutOfMemory;
      }
      UserPages(sz);
      CopyStarts(f0, s.v.dir, s.v.kern, free, sp.tabs, mem);
      SpentSize(f0, s.v.dir, s.v.kern, free);
      r := CopyInto(sp, s.v, PagesUp(sz), f0, m0);
    }
  }

  datatype LoopOutcome = Done | Short | Absent

  datatype CopyOutcome = Copied(d: Space) | OutOfMemory | NotPresent

  /** The first n pages of the child have their own frames with the parent's contents and flags; it has no others. */
  ghost predicate Copying(p: Tabs, d: Tabs, mem: map<nat, Page>, n: nat) {
    && (forall v :: 0 <= v < n ==>
          && Mapped(p, v) && Mapped(d, v) && At(d, v).flags == At(p, v).flags
          && At(d, v).frame in mem && At(p, v).frame in mem && mem[At(d, v).frame] == mem[At(p, v).frame])
    && (forall v :: n <= v ==> !Mapped(d, v))
    && (forall r :: r in d <==> 0 <= r && r * NPT < n)
  }

  /** No frame is both free and in use, nor in use twice. */
  ghost predicate Exclusive(free: seq<nat>, d: Tabs, p: Tabs) {
    forall g: nat :: multiset(free)[g] + Uses(d, g) + Uses(p, g) <= 1
  }

  lemma NotFree(free: seq<nat>, d: Tabs, p: Tabs, v: nat)
    requires Exclusive(free, d, p) && v < NPAGES
    ensures Mapped(d, v) ==> At(d, v).frame !in free
    ensures Mapped(p, v) ==> At(p, v).frame !in free
  {
    hide TabUses, PageUses;
    if Mapped(d, v) {
      PageUsed(d, v, NPAGES);
      var f := At(d, v).frame;
      assert multiset(free)[f] + Uses(d, f) + Uses(p, f) <= 1;
    }
    if Mapped(p, v) {
      PageUsed(p, v, NPAGES);
      var f := At(p, v).frame;
      assert multiset(free)[f] + Uses(d, f) + Uses(p, f) <= 1;
    }
  }

  lemma NextRegion(p: Tabs, d: Tabs, mem: map<nat, Page>, i: nat)
    requires Copying(p, d, mem, i)
    ensures !Mapped(d, i) && (i / NPT in d <==> i % NPT != 0)
  {
    assert i / NPT * NPT < i <==> i % NPT != 0;
  }

  /** A new page of the child: its own frame with the parent's contents, and nothing else changed. */
  lemma CopyStep(p: Tabs, t0: Tabs, t1: Tabs, m0: map<nat, Page>, m1: map<nat, Page>, m2: map<nat, Page>, f0: seq<nat>, f1: seq<nat>, i: nat, g: nat)
    requires Copying(p, t0, m0, i) && Exclusive(f0, t0, p) && f0 == [g] + f1 && i < NPAGES && Mapped(p, i)
    requires At(p, i).frame in m0 && g in m0 && m1 == m0[g := m0[At(p, i).frame]]
    requires Entered(t0, t1, i, Pte(g, At(p, i).flags)) && Untouched(m1, m2, f1)
    ensures Copying(p, t1, m2, i + 1) && Untouched(m0, m2, f0)
  {
    hide Mapped, At, Uses;
    assert g !in f1 by { assert multiset(f0)[g] == 1 + multiset(f1)[g]; }
    forall v | 0 <= v < i + 1
      ensures Mapped(p, v) && Mapped(t1, v) && At(t1, v).flags == At(p, v).flags
      ensures At(t1, v).frame in m2 && At(p, v).frame in m2 && m2[At(t1, v).frame] == m2[At(p, v).frame]
    {
      NotFree(f0, t0, p, v);
      if v < i { assert SameAt(t0, t1, v); }
    }
    forall v | i + 1 <= v ensures !Mapped(t1, v) {
      assert SameAt(t0, t1, v);
    }
    forall r: nat ensures r * NPT < i + 1 <==> r * NPT < i || r == i / NPT {
    }
  }

  lemma {:induction false} NoTabs(n: nat, g: nat)
    ensures TabUses(map[], n, g) == 0
  {
    if n > 0 { NoTabs(n - 1, g); }
  }

  lemma EmptyUses(g: nat)
    ensures Uses(map[], g) == 0
  {
    NoTabs(NUSER, g);
    NoUses(map[], NPAGES, g);
  }

  lemma CopyStarts(free: seq<nat>, dir: nat, kern: seq<nat>, f1: seq<nat>, p: Tabs, mem: map<nat, Page>)
    requires Spent(free, dir, kern, f1) && Exclusive(free, map[], p)
    ensures Copying(p, map[], mem, 0) && Exclusive(f1, map[], p) && Subset(f1, free)
    ensures SpentCounts(free, dir, kern, f1)
  {
    hide Uses;
    forall g: nat ensures multiset(free)[g] == One(dir == g) + multiset(kern)[g] + multiset(f1)[g] && Uses(map[], g) == 0 {
      EmptyUses(g);
    }
    forall g | g in f1 ensures g in free {
      assert multiset(free)[g] >= multiset(f1)[g];
    }
  }

  lemma UserPages(sz: nat)
    requires sz <= KERNBASE
    ensures PagesUp(sz) <= NPAGES
  {
  }

  lemma NeedNothing()
    ensures Need(0) == 0
  {
  }

  lemma NothingTouched(m: map<nat, Page>, free: seq<nat>)
    ensures Untouched(m, m, free)
  {
  }

  lemma SpentSize(free: seq<nat>, dir: nat, kern: seq<nat>, f1: seq<nat>)
    requires SpentCounts(free, dir, kern, f1)
    ensures |free| == 1 + |kern| + |f1|
  {
  }

  lemma NeedNext(i: nat)
    ensures Need(i + 1) == Need(i) + 1 + One(i % NPT == 0)
  {
  }

  lemma {:induction false} NeedGrows(i: nat, n: nat)
    requires i <= n
    ensures Need(i) <= Need(n)
  {
  }

  /** The loop stops with a frame taken but not mapped exactly when the count leaves one frame for a new region. */
  lemma NeedFails(i: nat, n: nat, total: nat, left: nat)
    requires i < n && left == total - Need(i) && left < 1 + One(i % NPT == 0)
    ensures total < Need(n) && One(left != 0) == One(total % (NPT + 1) == 1)
  {
    NeedNext(i);
    NeedGrows(i + 1, n);
    var q, m := i / NPT, i % NPT;
    assert i == NPT * q + m;
    if m == 0 {
      assert total == (NPT + 1) * q + left;
    } else {
      assert (i + NPT - 1) / NPT == q + 1;
      assert total == (NPT + 1) * q + (m + 1);
    }
  }

  lemma ExclusiveKept(f: seq<nat>, d: Tabs, f': seq<nat>, d': Tabs, p: Tabs, lost: seq<nat>)
    requires Exclusive(f, d, p) && forall g: nat :: Total(f', d', g) + multiset(lost)[g] == Total(f, d, g)
    ensures Exclusive(f', d', p)
  {
    forall g: nat ensures multiset(f')[g] + Uses(d', g) + Uses(p, g) <= 1 {
      assert Total(f', d', g) + multiset(lost)[g] == Total(f, d, g);
    }
  }

  lemma UntouchedTwice(m0: map<nat, Page>, m1: map<nat, Page>, m2: map<nat, Page>, free: seq<nat>, f1: seq<nat>)
    requires Untouched(m0, m1, free) && Untouched(m1, m2, f1) && Subset(f1, free)
    ensures Untouched(m0, m2, free)
  {
  }

  lemma UntouchedOn(m0: map<nat, Page>, m1: map<nat, Page>, m2: map<nat, Page>, f1: seq<nat>, f2: seq<nat>)
    requires Untouched(m0, m1, f1) && Untouched(m1, m2, f2) && Kept(f1, f2)
    ensures Untouched(m0, m2, f2)
  {
  }

  lemma UntouchedFreed(m0: map<nat, Page>, m1: map<nat, Page>, f1: seq<nat>, f: nat)
    requires Untouched(m0, m1, f1) && f in m1
    ensures Untouched(m0, m1[f := Filled(1)], [f] + f1)
  {
  }

  lemma LostExactly(free: seq<nat>, dir: nat, kern: seq<nat>, f1: seq<nat>, f3: seq<nat>, t3: Tabs, free': seq<nat>, lost: seq<nat>)
    requires SpentCounts(free, dir, kern, f1) && Balanced(f1, f3, t3, lost)
    requires forall g: nat :: multiset(free')[g] == multiset(f3)[g] + (One(dir == g) + multiset(kern)[g] + Uses(t3, g))
    ensures GivenBack(free, free', |lost|) && Subset(free', free)
  {
    forall g: nat ensures multiset(free')[g] + multiset(lost)[g] == multiset(free)[g] {
      assert Total(f3, t3, g) + multiset(lost)[g] == Total(f1, map[], g);
    }
    forall g | g in free' ensures g in free {
      assert multiset(free')[g] > 0;
    }
  }

  lemma CopyEnds(free: seq<nat>, dir: nat, kern: seq<nat>, f1: seq<nat>, free': seq<nat>, d: Tabs)
    requires SpentCounts(free, dir, kern, f1) && Balanced(f1, free', d, [])
    ensures forall g: nat :: multiset(free')[g] + (One(dir == g) + multiset(kern)[g] + Uses(d, g)) == multiset(free)[g]
  {
    forall g: nat ensures multiset(free')[g] + (One(dir == g) + multiset(kern)[g] + Uses(d, g)) == multiset(free)[g] {
      assert Total(free', d, g) + multiset([])[g] == Total(f1, map[], g);
    }
  }

  lemma NotThere(p: Tabs, i: nat)
    requires !(i / NPT in p && i % NPT in p[i / NPT].ptes)
    ensures !Mapped(p, i)
  {
  }

  lemma There(p: Tabs, i: nat)
    requires i / NPT in p && i % NPT in p[i / NPT].ptes
    ensures Mapped(p, i)
  {
  }

  /** Frames copyuvm takes for n pages: the pages and their page-table pages. */
  function Need(n: nat): (k: nat) {
    n + (n + NPT - 1) / NPT
  }

  /** The free list before setupkvm, by where its frames are afterwards. */
  ghost predicate Spent(free: seq<nat>, dir: nat, kern: seq<nat>, f1: seq<nat>) {
    free == [dir] + kern + f1
  }

  ghost predicate SpentCounts(free: seq<nat>, dir: nat, kern: seq<nat>, f1: seq<nat>) {
    |free| == 1 + |kern| + |f1| && forall g: nat :: multiset(free)[g] == One(dir == g) + multiset(kern)[g] + Total(f1, map[], g)
  }

  /** Frames free, mapped and lost make up those free at first. */
  ghost predicate Balanced(f1: seq<nat>, free: seq<nat>, tabs: Tabs, lost: seq<nat>) {
    (forall g: nat :: Total(free, tabs, g) + multiset(lost)[g] == Total(f1, map[], g)) && forall g :: g in free ==> g in f1
  }

  ghost predicate Subset(a: seq<nat>, b: seq<nat>) {
    forall g :: g in a ==> g in b
  }

  /** All the frames but k are free again. */
  ghost predicate GivenBack(before: seq<nat>, after: seq<nat>, k: nat) {
    exists lost: seq<nat> :: |lost| == k && forall g: nat :: multiset(after)[g] + multiset(lost)[g] == multiset(before)[g]
  }

  lemma PageInRange(tabs: Tabs, v: nat, lo: nat, hi: nat)
    requires Ranges(tabs, lo, hi) && Mapped(tabs, v)
    ensures lo <= At(tabs, v).frame < hi
  {
  }

  lemma ClearRanges(tabs: Tabs, v: nat, lo: nat, hi: nat)
    requires Ranges(tabs, lo, hi) && v / NPT in tabs
    ensures Ranges(Clear(tabs, v), lo, hi)
  {
  }

  lemma ClearAbsent(tabs: Tabs, v: nat)
    requires v / NPT in tabs && !Mapped(tabs, v)
    ensures Clear(tabs, v) == tabs
  {
    var t := tabs[v / NPT];
    assert t.ptes - {v % NPT} == t.ptes;
    assert Tab(t.frame, t.ptes) == t;
  }

  /** The walk from page 0 leaves nothing mapped, and no page-table page changes its frame. */
  lemma SweptClean(tabs: Tabs, tabs': Tabs)
    requires tabs' == Sweep(tabs, PagesUp(0), PagesUp(KERNBASE))
    ensures forall g: nat :: PageUses(tabs', NPAGES, g) == 0
  {
    assert PagesUp(0) == 0 && PagesUp(KERNBASE) == NPAGES;
    forall v: nat | v < NPAGES ensures !Mapped(tabs', v) {
      SweepPresent(tabs, 0, NPAGES, v);
    }
    forall g: nat ensures PageUses(tabs', NPAGES, g) == 0 {
      NoUses(tabs', NPAGES, g);
    }
  }

  lemma {:induction false} NoUses(tabs: Tabs, n: nat, g: nat)
    requires forall v :: 0 <= v < n ==> !Mapped(tabs, v)
    ensures PageUses(tabs, n, g) == 0
  {
    if n > 0 { NoUses(tabs, n - 1, g); }
  }

  /** v is mapped to p and every other page is as before; v's region has a page table. */
  ghost predicate Entered(tabs: Tabs, tabs': Tabs, v: nat, p: Pte) {
    && Mapped(tabs', v) && At(tabs', v) == p
    && (forall u :: 0 <= u && u != v ==> SameAt(tabs, tabs', u))
    && (forall r :: r in tabs' <==> r in tabs || r == v / NPT)
  }

  ghost predicate SameAt(tabs: Tabs, tabs': Tabs, u: nat) {
    Mapped(tabs', u) == Mapped(tabs, u) && (Mapped(tabs, u) ==> At(tabs', u) == At(tabs, u))
  }

  /** Pages v to v + k are mapped to the frames from f on, and every other page is as before. */
  ghost predicate MapsTo(tabs: Tabs, tabs': Tabs, v: nat, k: nat, f: nat, flags: nat) {
    && (forall u :: v <= u < v + k ==> Mapped(tabs', u) && At(tabs', u) == Pte(f + (u - v), flags))
    && (forall u :: 0 <= u && !(v <= u < v + k) ==> SameAt(tabs, tabs', u))
  }

  ghost predicate Kept(free: seq<nat>, free': seq<nat>) {
    forall g :: g in free ==> g in free'
  }

  /** Frames outside free keep their contents. */
  ghost predicate Untouched(mem: map<nat, Page>, mem': map<nat, Page>, free: seq<nat>) {
    mem'.Keys == mem.Keys && forall g :: g in mem && g !in free ==> mem'[g] == mem[g]
  }

  lemma WalkSame(tabs: Tabs, tabs': Tabs, v: nat, free: seq<nat>)
    requires Mapped(tabs', v) && (tabs' == tabs || (v / NPT !in tabs && free != [] && tabs' == AddTab(tabs, v / NPT, free[0])))
    ensures tabs' == tabs
  {
  }

  lemma EnterRanges(tabs: Tabs, v: nat, p: Pte, lo: nat, hi: nat)
    requires Ranges(tabs, lo, hi) && v / NPT in tabs && lo <= p.frame < hi
    ensures Ranges(Enter(tabs, v, p), lo, hi)
  {
  }

  lemma EnteredNow(tabs: Tabs, tabs1: Tabs, v: nat, p: Pte, free: seq<nat>)
    requires v / NPT in tabs1
    requires tabs1 == tabs || (v / NPT !in tabs && free != [] && tabs1 == AddTab(tabs, v / NPT, free[0]))
    ensures Entered(tabs, Enter(tabs1, v, p), v, p)
  {
    AfterEnter(tabs1, v, p, v);
    forall u: nat | u != v ensures SameAt(tabs, Enter(tabs1, v, p), u) {
      AfterEnter(tabs1, v, p, u);
      if tabs1 != tabs { AfterAddTab(tabs, v / NPT, free[0], u); }
    }
  }

  lemma MapsStep(tabs0: Tabs, tabs1: Tabs, tabs: Tabs, v: nat, k: nat, f: nat, flags: nat)
    requires MapsTo(tabs0, tabs1, v, k, f, flags) && Entered(tabs1, tabs, v + k, Pte(f + k, flags))
    ensures MapsTo(tabs0, tabs, v, k + 1, f, flags)
  {
    hide Mapped, At;
    forall u | v <= u < v + k + 1 ensures Mapped(tabs, u) && At(tabs, u) == Pte(f + (u - v), flags) {
      if u < v + k { assert SameAt(tabs1, tabs, u); }
    }
    forall u: nat | !(v <= u < v + k + 1) ensures SameAt(tabs0, tabs, u) {
      assert SameAt(tabs1, tabs, u) && SameAt(tabs0, tabs1, u);
    }
  }

  /** After copyuvm no page of the child shares a frame with a page of the parent or with another of its own. */
  lemma Isolated(before: seq<nat>, p: Tabs, d: Tabs, v: nat, w: nat)
    requires Exclusive(before, map[], p) && forall g: nat :: Uses(d, g) <= multiset(before)[g]
    requires v < NPAGES && w < NPAGES && Mapped(d, v)
    ensures Mapped(p, w) ==> At(p, w).frame != At(d, v).frame
    ensures Mapped(d, w) && v < w ==> At(d, v).frame != At(d, w).frame
  {
    hide PageUses, TabUses;
    PageUsed(d, v, NPAGES);
    var f := At(d, v).frame;
    assert multiset(before)[f] + Uses(map[], f) + Uses(p, f) <= 1;
    if Mapped(p, w) && At(p, w).frame == f {
      PageUsed(p, w, NPAGES);
    }
    if Mapped(d, w) && v < w {
      var h := At(d, w).frame;
      assert multiset(before)[h] + Uses(map[], h) + Uses(p, h) <= 1;
      PagesApart(d, v, w, NPAGES);
    }
  }
}
