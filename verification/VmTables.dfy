/**
The user half of a two-level page table (vm.c): which pages are mapped, which
frames the table uses, and what deallocuvm's walk over it does.
*/
module VmTables {
  /** NPTENTRIES, and the page-directory entries below KERNBASE. */
  const NPT: nat := 1024
  const NUSER: nat := 512
  const NPAGES: nat := NUSER * NPT

  /** A present entry: frame number and flag bits. */
  datatype Pte = Pte(frame: nat, flags: nat)

  /** A page-table page: its own frame and its present entries. */
  datatype Tab = Tab(frame: nat, ptes: map<nat, Pte>)

  /** The present directory entries. */
  type Tabs = map<nat, Tab>

  predicate Mapped(tabs: Tabs, v: nat) {
    v / NPT in tabs && v % NPT in tabs[v / NPT].ptes
  }

  function At(tabs: Tabs, v: nat): (p: Pte)
    requires Mapped(tabs, v)
  {
    tabs[v / NPT].ptes[v % NPT]
  }

  /** walkpgdir's new page-table page. */
  function AddTab(tabs: Tabs, r: nat, f: nat): (t: Tabs) {
    tabs[r := Tab(f, map[])]
  }

  function Enter(tabs: Tabs, v: nat, p: Pte): (t: Tabs)
    requires v / NPT in tabs
  {
    tabs[v / NPT := Tab(tabs[v / NPT].frame, tabs[v / NPT].ptes[v % NPT := p])]
  }

  function Clear(tabs: Tabs, v: nat): (t: Tabs)
    requires v / NPT in tabs
  {
    tabs[v / NPT := Tab(tabs[v / NPT].frame, tabs[v / NPT].ptes - {v % NPT})]
  }

  lemma SplitPage(u: nat, v: nat)
    requires u / NPT == v / NPT && u % NPT == v % NPT
    ensures u == v
  {
  }

  lemma AfterEnter(tabs: Tabs, v: nat, p: Pte, u: nat)
    requires v / NPT in tabs
    ensures Mapped(Enter(tabs, v, p), u) <==> u == v || Mapped(tabs, u)
    ensures u == v ==> At(Enter(tabs, v, p), u) == p
    ensures u != v && Mapped(tabs, u) ==> At(Enter(tabs, v, p), u) == At(tabs, u)
  {
    if u / NPT == v / NPT && u % NPT == v % NPT { SplitPage(u, v); }
  }

  lemma AfterClear(tabs: Tabs, v: nat, u: nat)
    requires v / NPT in tabs
    ensures Mapped(Clear(tabs, v), u) <==> u != v && Mapped(tabs, u)
    ensures u != v && Mapped(tabs, u) ==> At(Clear(tabs, v), u) == At(tabs, u)
  {
    if u / NPT == v / NPT && u % NPT == v % NPT { SplitPage(u, v); }
  }

  lemma AfterAddTab(tabs: Tabs, r: nat, f: nat, u: nat)
    requires r !in tabs
    ensures Mapped(AddTab(tabs, r, f), u) <==> Mapped(tabs, u)
    ensures Mapped(tabs, u) ==> At(AddTab(tabs, r, f), u) == At(tabs, u)
  {
  }

  // ---- frames in use ----

  function One(b: bool): (n: nat) {
    if b then 1 else 0
  }

  /** How many of the first n directory entries have frame f as their page-table page. */
  ghost function TabUses(tabs: Tabs, n: nat, f: nat): (k: nat) {
    if n == 0 then 0 else TabUses(tabs, n - 1, f) + One(n - 1 in tabs && tabs[n - 1].frame == f)
  }

  /** How many of the first n pages are mapped to frame f. */
  ghost function PageUses(tabs: Tabs, n: nat, f: nat): (k: nat) {
    if n == 0 then 0 else PageUses(tabs, n - 1, f) + One(Mapped(tabs, n - 1) && At(tabs, n - 1).frame == f)
  }

  /** How often the table uses frame f. */
  ghost function Uses(tabs: Tabs, f: nat): (k: nat) {
    TabUses(tabs, NUSER, f) + PageUses(tabs, NPAGES, f)
  }

  lemma {:induction false} TabsUpdate(tabs: Tabs, r: nat, t: Tab, n: nat, f: nat)
    ensures TabUses(tabs[r := t], n, f) + One(r < n && r in tabs && tabs[r].frame == f) == TabUses(tabs, n, f) + One(r < n && t.frame == f)
  {
    if n > 0 { TabsUpdate(tabs, r, t, n - 1, f); }
  }

  lemma {:induction false} PagesSame(tabs: Tabs, tabs': Tabs, n: nat, f: nat)
    requires forall u :: 0 <= u < n ==> Mapped(tabs', u) == Mapped(tabs, u) && (Mapped(tabs, u) ==> At(tabs', u) == At(tabs, u))
    ensures PageUses(tabs', n, f) == PageUses(tabs, n, f)
  {
    if n > 0 { PagesSame(tabs, tabs', n - 1, f); }
  }

  lemma {:induction false} PagesEnter(tabs: Tabs, v: nat, p: Pte, n: nat, f: nat)
    requires v / NPT in tabs && !Mapped(tabs, v)
    ensures PageUses(Enter(tabs, v, p), n, f) == PageUses(tabs, n, f) + One(v < n && p.frame == f)
  {
    if n > 0 {
      AfterEnter(tabs, v, p, n - 1);
      PagesEnter(tabs, v, p, n - 1, f);
    }
  }

  lemma {:induction false} PagesClear(tabs: Tabs, v: nat, n: nat, f: nat)
    requires Mapped(tabs, v)
    ensures PageUses(tabs, n, f) == PageUses(Clear(tabs, v), n, f) + One(v < n && At(tabs, v).frame == f)
  {
    if n > 0 {
      AfterClear(tabs, v, n - 1);
      PagesClear(tabs, v, n - 1, f);
    }
  }

  lemma UsesAddTab(tabs: Tabs, r: nat, g: nat, f: nat)
    requires r < NUSER && r !in tabs
    ensures Uses(AddTab(tabs, r, g), f) == Uses(tabs, f) + One(g == f)
  {
    hide TabUses, PageUses, Mapped, At;
    TabsUpdate(tabs, r, Tab(g, map[]), NUSER, f);
    forall u | 0 <= u < NPAGES ensures Mapped(AddTab(tabs, r, g), u) == Mapped(tabs, u) && (Mapped(tabs, u) ==> At(AddTab(tabs, r, g), u) == At(tabs, u)) {
      AfterAddTab(tabs, r, g, u);
    }
    PagesSame(tabs, AddTab(tabs, r, g), NPAGES, f);
  }

  lemma UsesEnter(tabs: Tabs, v: nat, p: Pte, f: nat)
    requires v < NPAGES && v / NPT in tabs && !Mapped(tabs, v)
    ensures Uses(Enter(tabs, v, p), f) == Uses(tabs, f) + One(p.frame == f)
  {
    hide TabUses, PageUses;
    var r := v / NPT;
    TabsUpdate(tabs, r, Enter(tabs, v, p)[r], NUSER, f);
    PagesEnter(tabs, v, p, NPAGES, f);
  }

  lemma UsesClear(tabs: Tabs, v: nat, f: nat)
    requires v < NPAGES && Mapped(tabs, v)
    ensures Uses(tabs, f) == Uses(Clear(tabs, v), f) + One(At(tabs, v).frame == f)
  {
    hide TabUses, PageUses;
    var r := v / NPT;
    TabsUpdate(tabs, r, Clear(tabs, v)[r], NUSER, f);
    PagesClear(tabs, v, NPAGES, f);
  }

  /** A mapped page's frame is in use. */
  lemma {:induction false} PageUsed(tabs: Tabs, v: nat, n: nat)
    requires Mapped(tabs, v) && v < n
    ensures PageUses(tabs, n, At(tabs, v).frame) >= 1
    decreases n
  {
    if v < n - 1 { PageUsed(tabs, v, n - 1); }
  }

  /** If no frame is in use twice, different pages have different frames. */
  lemma {:induction false} PagesApart(tabs: Tabs, u: nat, v: nat, n: nat)
    requires Mapped(tabs, u) && Mapped(tabs, v) && u < v < n && PageUses(tabs, n, At(tabs, v).frame) <= 1
    ensures At(tabs, u).frame != At(tabs, v).frame
    decreases n
  {
    if v == n - 1 {
      PageUsed(tabs, u, n - 1);
    } else {
      PagesApart(tabs, u, v, n - 1);
    }
  }

  // ---- deallocuvm's walk ----

  /** From page a to page end: clear what is mapped; where a page table is missing, go 1024 pages on. */
  ghost function Sweep(tabs: Tabs, a: nat, end: nat): (t: Tabs)
    decreases end - a
  {
    if a >= end then tabs
    else if a / NPT !in tabs then Sweep(tabs, a + NPT, end)
    else Sweep(Clear(tabs, a), a + 1, end)
  }

  /** Pages the walk jumps over: lower in their 4 MB region than the starting page in its own, with
      no page table for any region from the start up to theirs. */
  ghost predicate Overlooked(tabs: Tabs, a: nat, v: nat) {
    v % NPT < a % NPT && a / NPT < v / NPT && forall r :: a / NPT <= r < v / NPT ==> r !in tabs
  }

  /** The walk never touches pages before its start. */
  lemma {:induction false} SweepBelow(tabs: Tabs, a: nat, end: nat, v: nat)
    requires v < a
    ensures Mapped(Sweep(tabs, a, end), v) == Mapped(tabs, v)
    ensures Mapped(tabs, v) ==> At(Sweep(tabs, a, end), v) == At(tabs, v)
    decreases end - a
  {
    if a < end {
      if a / NPT !in tabs {
        SweepBelow(tabs, a + NPT, end, v);
      } else {
        AfterClear(tabs, a, v);
        SweepBelow(Clear(tabs, a), a + 1, end, v);
      }
    }
  }

  /** Nor pages from its end on, and it maps none. */
  lemma {:induction false} SweepKeeps(tabs: Tabs, a: nat, end: nat, v: nat)
    ensures Mapped(Sweep(tabs, a, end), v) ==> Mapped(tabs, v) && At(Sweep(tabs, a, end), v) == At(tabs, v)
    ensures v >= end && Mapped(tabs, v) ==> Mapped(Sweep(tabs, a, end), v)
    decreases end - a
  {
    if a < end {
      if a / NPT !in tabs {
        SweepKeeps(tabs, a + NPT, end, v);
      } else {
        AfterClear(tabs, a, v);
        SweepKeeps(Clear(tabs, a), a + 1, end, v);
      }
    }
  }

  /** Past the pages of its first region the walk is in step with the regions. */
  lemma {:induction false} SweepPresent(tabs: Tabs, a: nat, end: nat, v: nat)
    requires (a / NPT in tabs || a % NPT == 0) && a <= v
    ensures Mapped(Sweep(tabs, a, end), v) <==> Mapped(tabs, v) && v >= end
    ensures Mapped(tabs, v) && v >= end ==> At(Sweep(tabs, a, end), v) == At(tabs, v)
    decreases end - a
  {
    if a < end {
      if a / NPT !in tabs {
        if v < a + NPT {
          SweepBelow(tabs, a + NPT, end, v);
        } else {
          SweepPresent(tabs, a + NPT, end, v);
        }
      } else {
        AfterClear(tabs, a, v);
        if v == a {
          SweepBelow(Clear(tabs, a), a + 1, end, v);
        } else {
          SweepPresent(Clear(tabs, a), a + 1, end, v);
        }
      }
    }
  }

  /** Exactly the pages of the range that are not overlooked are unmapped. */
  lemma {:induction false} SweepExact(tabs: Tabs, a: nat, end: nat, v: nat)
    requires a <= v && Mapped(tabs, v)
    ensures Mapped(Sweep(tabs, a, end), v) <==> v >= end || Overlooked(tabs, a, v)
    decreases end - a
  {
    if a / NPT in tabs || a % NPT == 0 {
      SweepPresent(tabs, a, end, v);
    } else if a < end {
      if v < a + NPT {
        SweepBelow(tabs, a + NPT, end, v);
      } else {
        SweepExact(tabs, a + NPT, end, v);
        assert (a + NPT) / NPT == a / NPT + 1 && (a + NPT) % NPT == a % NPT;
      }
    }
  }

  /** The walk from page 5, where there is no table, steps over the first page of the next table. */
  lemma OverlookedPage()
    ensures var tabs := map[1 := Tab(7, map[0 := Pte(9, 0)])];
            Mapped(tabs, NPT) && Mapped(Sweep(tabs, 5, 2 * NPT), NPT)
  {
    var tabs := map[1 := Tab(7, map[0 := Pte(9, 0)])];
    SweepExact(tabs, 5, 2 * NPT, NPT);
  }
}
