/**
The user-level allocator of umalloc.c, section 8.7 of The C Programming
Language, second edition.  Addresses count header-sized units; base is the
static list head, which lies below everything sbrk hands out.
*/
module Malloc {
  const HEADER: nat := 8
  const MINUNITS: nat := 4096
  const WORD: nat := 0x1_0000_0000
  const KERNBASE: nat := 0x8000_0000

  datatype Header = Header(ptr: int, size: nat)

  /** Blocks by start address, with their sizes in units. */
  type Blocks = map<int, nat>

  // ---- how the units from sbrk are divided ----

  ghost predicate In(a: int, n: nat, u: int) {
    a <= u < a + n
  }

  ghost function UnitsOf(a: int, n: nat): (r: set<int>) {
    set u: int | a <= u < a + n && In(a, n, u)
  }

  /** The blocks are non-empty, apart from each other, and cover exactly the given units. */
  ghost predicate Tiled(base: int, blocks: Blocks, units: set<int>) {
    && (forall a: int :: a in blocks ==> base < a && blocks[a] >= 1)
    && (forall a: int, b: int :: a in blocks && b in blocks && a < b ==> a + blocks[a] <= b)
    && (forall a: int, u: int :: a in blocks && In(a, blocks[a], u) ==> u in units)
    && (forall u: int :: u in units ==> exists a: int :: a in blocks && In(a, blocks[a], u))
  }

  /** The free list from base on: addresses ascend, and no two free blocks touch. */
  ghost predicate Ordered(base: int, ring: seq<int>, blocks: Blocks) {
    && |ring| > 0 && ring[0] == base
    && (forall i, j :: 0 <= i < j < |ring| ==> ring[i] < ring[j])
    && (forall i :: 1 <= i < |ring| ==> ring[i] in blocks)
    && (forall i :: 1 <= i < |ring| - 1 && ring[i] in blocks ==> ring[i] + blocks[ring[i]] != ring[i + 1])
  }

  function Next(n: nat, i: nat): (k: nat)
    requires i < n
    ensures k < n
  {
    if i + 1 < n then i + 1 else 0
  }

  ghost predicate Points(mem: map<int, Header>, ring: seq<int>, i: nat) {
    i < |ring| && ring[i] in mem && mem[ring[i]].ptr == ring[Next(|ring|, i)]
  }

  /** The headers in memory: list pointers close the ring, sizes are the blocks'. */
  ghost predicate Headers(base: int, ring: seq<int>, blocks: Blocks, mem: map<int, Header>) {
    && base in mem && mem[base].size == 0
    && (forall i :: 0 <= i < |ring| ==> Points(mem, ring, i))
    && (forall a: int :: a in blocks ==> a in mem && mem[a].size == blocks[a])
  }

  ghost predicate FreeUnit(ring: seq<int>, blocks: Blocks, u: int) {
    exists i :: 1 <= i < |ring| && ring[i] in blocks && In(ring[i], blocks[ring[i]], u)
  }

  // ---- coalescing ----

  /** Growing a block over its right neighbour. */
  function Join(blocks: Blocks, a: int, b: int): (r: Blocks)
    requires a in blocks && b in blocks
  {
    (blocks - {b})[a := blocks[a] + blocks[b]]
  }

  lemma JoinTiles(base: int, blocks: Blocks, units: set<int>, a: int, b: int)
    requires Tiled(base, blocks, units) && a in blocks && b in blocks && a + blocks[a] == b
    ensures Tiled(base, Join(blocks, a, b), units)
  {
    var r := Join(blocks, a, b);
    forall x: int, y: int | x in r && y in r && x < y ensures x + r[x] <= y {
      if x == a {
        assert b + blocks[b] <= y;
      }
    }
    forall u: int | u in units ensures exists x: int :: x in r && In(x, r[x], u) {
      var x: int :| x in blocks && In(x, blocks[x], u);
      var y := if x == b then a else x;
      assert y in r && In(y, r[y], u);
    }
    forall x: int, u: int | x in r && In(x, r[x], u) ensures u in units {
      if x == a {
        assert In(a, blocks[a], u) || In(b, blocks[b], u);
      } else {
        assert In(x, blocks[x], u);
      }
    }
  }

  /** Cutting n units off the end of a larger block. */
  function Cut(blocks: Blocks, a: int, n: nat): (r: Blocks)
    requires a in blocks && 1 <= n < blocks[a]
  {
    blocks[a := blocks[a] - n][a + blocks[a] - n := n]
  }

  lemma {:induction false} CutApart(base: int, blocks: Blocks, units: set<int>, a: int, n: nat)
    requires Tiled(base, blocks, units) && a in blocks && 1 <= n < blocks[a]
    ensures forall x: int, y: int :: x in Cut(blocks, a, n) && y in Cut(blocks, a, n) && x < y ==> x + Cut(blocks, a, n)[x] <= y
  {
    var t := a + blocks[a] - n;
    forall x: int, y: int | x in blocks && y in blocks && x < y ensures x + blocks[x] <= y {
    }
  }

  lemma {:induction false} CutTiles(base: int, blocks: Blocks, units: set<int>, a: int, n: nat)
    requires Tiled(base, blocks, units) && a in blocks && 1 <= n < blocks[a]
    ensures a + blocks[a] - n !in blocks && Tiled(base, Cut(blocks, a, n), units)
  {
    var r, t := Cut(blocks, a, n), a + blocks[a] - n;
    assert t !in blocks;
    CutApart(base, blocks, units, a, n);
    forall u: int | u in units ensures exists x: int :: x in r && In(x, r[x], u) {
      var x: int :| x in blocks && In(x, blocks[x], u);
      var y := if x == a && u >= t then t else x;
      assert y in r && In(y, r[y], u);
    }
    forall x: int, u: int | x in r && In(x, r[x], u) ensures u in units {
      var y := if x == t then a else x;
      assert In(y, blocks[y], u);
    }
  }

  /** A fresh block above everything. */
  lemma GrowTiles(base: int, blocks: Blocks, units: set<int>, a: int, n: nat, more: set<int>)
    requires Tiled(base, blocks, units) && base < a && 1 <= n && (forall u: int :: u in units ==> u < a)
    requires forall u: int :: u in more <==> In(a, n, u)
    ensures a !in blocks && Tiled(base, blocks[a := n], units + more)
  {
    var r := blocks[a := n];
    forall x: int | x in blocks ensures x + blocks[x] <= a {
      assert blocks[x] >= 1 && In(x, blocks[x], x + blocks[x] - 1);
      assert x + blocks[x] - 1 in units;
    }
    forall u: int | u in units + more ensures exists x: int :: x in r && In(x, r[x], u) {
      if u in units {
        var x: int :| x in blocks && In(x, blocks[x], u);
        assert x in r && In(x, r[x], u);
      } else {
        assert a in r && In(a, r[a], u);
      }
    }
    forall x: int, u: int | x in r && In(x, r[x], u) ensures u in units + more {
      if x != a {
        assert In(x, blocks[x], u);
      }
    }
  }

  // ---- putting a block back ----

  /** bp is an allocated block whose place in the free list is behind ring[k]. */
  ghost predicate Pending(base: int, ring: seq<int>, blocks: Blocks, units: set<int>, bp: int, k: nat) {
    && Tiled(base, blocks, units) && Ordered(base, ring, blocks)
    && bp in blocks && bp !in ring && k < |ring| && ring[k] < bp && (k + 1 < |ring| ==> bp < ring[k + 1])
  }

  predicate TouchesNext(ring: seq<int>, blocks: Blocks, bp: int, k: nat)
    requires bp in blocks
  {
    k + 1 < |ring| && bp + blocks[bp] == ring[k + 1] && ring[k + 1] in blocks
  }

  function RingWithout(ring: seq<int>, k: nat): (r: seq<int>)
    requires k < |ring|
  {
    ring[..k] + ring[k + 1..]
  }

  function RingWith(ring: seq<int>, k: nat, a: int): (r: seq<int>)
    requires k <= |ring|
  {
    ring[..k] + [a] + ring[k..]
  }

  lemma DropKeepsOrder(base: int, ring: seq<int>, blocks: Blocks, k: nat)
    requires Ordered(base, ring, blocks) && 1 <= k < |ring|
    requires forall a: int, b: int :: a in blocks && b in blocks && a < b ==> a + blocks[a] <= b
    requires forall a: int :: a in blocks ==> blocks[a] >= 1
    ensures Ordered(base, RingWithout(ring, k), blocks)
  {
    var r := RingWithout(ring, k);
    forall i | 1 <= i < |r| - 1 && r[i] in blocks ensures r[i] + blocks[r[i]] != r[i + 1] {
      if i == k - 1 {
        assert ring[i] + blocks[ring[i]] <= ring[k] < ring[k + 1];
      } else if i < k {
        assert ring[i] + blocks[ring[i]] != ring[i + 1];
      } else {
        assert ring[i + 1] + blocks[ring[i + 1]] != ring[i + 2];
      }
    }
  }

  /** The order looks only at the sizes of listed blocks. */
  lemma OrderFrame(base: int, ring: seq<int>, blocks: Blocks, blocks': Blocks)
    requires Ordered(base, ring, blocks)
    requires forall i :: 1 <= i < |ring| ==> ring[i] in blocks' && ring[i] in blocks && blocks'[ring[i]] == blocks[ring[i]]
    ensures Ordered(base, ring, blocks')
  {
  }

  lemma TiledApart(base: int, blocks: Blocks, units: set<int>)
    requires Tiled(base, blocks, units)
    ensures forall a: int, b: int :: a in blocks && b in blocks && a < b ==> a + blocks[a] <= b
    ensures forall a: int :: a in blocks ==> base < a && blocks[a] >= 1
  {
  }

  lemma RingElements(base: int, ring: seq<int>, blocks: Blocks, k: nat)
    requires Ordered(base, ring, blocks) && 1 <= k < |ring|
    ensures forall i :: 0 <= i < |RingWithout(ring, k)| ==> RingWithout(ring, k)[i] == ring[if i < k then i else i + 1] != ring[k]
  {
    var r := RingWithout(ring, k);
    forall i | 0 <= i < |r| ensures r[i] == ring[if i < k then i else i + 1] && r[i] != ring[k] {
      assert i < k ==> ring[i] < ring[k];
      assert i >= k ==> ring[k] < ring[i + 1];
    }
  }

  /** First half of free: swallow the right neighbour if it is free and adjacent. */
  lemma JoinNext(base: int, ring: seq<int>, blocks: Blocks, units: set<int>, bp: int, k: nat, ring': seq<int>, blocks': Blocks)
    requires Pending(base, ring, blocks, units, bp, k) && TouchesNext(ring, blocks, bp, k)
    requires ring' == RingWithout(ring, k + 1) && blocks' == Join(blocks, bp, ring[k + 1])
    ensures Pending(base, ring', blocks', units, bp, k) && !TouchesNext(ring', blocks', bp, k)
  {
    hide Tiled;
    var next := ring[k + 1];
    TiledApart(base, blocks, units);
    JoinTiles(base, blocks, units, bp, next);
    DropKeepsOrder(base, ring, blocks, k + 1);
    RingElements(base, ring, blocks, k + 1);
    forall i | 0 <= i < |ring'| ensures ring'[i] != next && ring'[i] != bp && (i >= 1 ==> ring'[i] in blocks' && blocks'[ring'[i]] == blocks[ring'[i]]) {
      assert ring'[i] in ring;
    }
    OrderFrame(base, ring', blocks, blocks');
    if k + 1 < |ring'| {
      assert ring[k + 1] + blocks[ring[k + 1]] != ring[k + 2];
    }
  }

  /** Second half: the left neighbour swallows the block, when free and adjacent. */
  lemma JoinPrev(base: int, ring: seq<int>, blocks: Blocks, units: set<int>, bp: int, k: nat, blocks': Blocks)
    requires Pending(base, ring, blocks, units, bp, k) && !TouchesNext(ring, blocks, bp, k)
    requires 1 <= k && ring[k] in blocks && ring[k] + blocks[ring[k]] == bp && blocks' == Join(blocks, ring[k], bp)
    ensures Tiled(base, blocks', units) && Ordered(base, ring, blocks')
  {
    hide Tiled;
    JoinTiles(base, blocks, units, ring[k], bp);
    forall i | 1 <= i < |ring| ensures ring[i] in blocks' {
      assert ring[i] in ring;
    }
    forall i | 1 <= i < |ring| - 1 && ring[i] in blocks' ensures ring[i] + blocks'[ring[i]] != ring[i + 1] {
      assert ring[i] + blocks[ring[i]] != ring[i + 1];
      assert ring[i + 1] in ring;
    }
  }

  /** Or it becomes a list element of its own. */
  lemma Insert(base: int, ring: seq<int>, blocks: Blocks, units: set<int>, bp: int, k: nat, ring': seq<int>)
    requires Pending(base, ring, blocks, units, bp, k) && !TouchesNext(ring, blocks, bp, k)
    requires 1 <= k && ring[k] in blocks ==> ring[k] + blocks[ring[k]] != bp
    requires ring' == RingWith(ring, k + 1, bp)
    ensures Ordered(base, ring', blocks)
  {
    hide Tiled;
    WithAt(ring, k + 1, bp, ring');
    forall i | 1 <= i < |ring'| - 1 && ring'[i] in blocks ensures ring'[i] + blocks[ring'[i]] != ring'[i + 1] {
      if i < k {
        assert ring[i] + blocks[ring[i]] != ring[i + 1];
      } else if i > k + 1 {
        assert ring[i - 1] + blocks[ring[i - 1]] != ring[i];
      }
    }
    InsertAscends(base, ring, blocks, bp, k, ring');
  }

  lemma WithAt(ring: seq<int>, k: nat, a: int, r: seq<int>)
    requires k <= |ring| && r == RingWith(ring, k, a)
    ensures forall i :: 0 <= i <= |ring| ==> r[i] == if i < k then ring[i] else if i == k then a else ring[i - 1]
  {
  }

  lemma InsertAscends(base: int, ring: seq<int>, blocks: Blocks, bp: int, k: nat, ring': seq<int>)
    requires Ordered(base, ring, blocks) && k < |ring| && ring[k] < bp && (k + 1 < |ring| ==> bp < ring[k + 1]) && ring' == RingWith(ring, k + 1, bp)
    ensures forall i, j :: 0 <= i < j < |ring'| ==> ring'[i] < ring'[j]
  {
    WithAt(ring, k + 1, bp, ring');
    forall i, j | 0 <= i < j < |ring'| ensures ring'[i] < ring'[j] {
      assert i <= k ==> ring'[i] <= ring[k];
      assert j >= k + 2 ==> bp < ring'[j];
    }
  }

  lemma FreeBeforeJoin(base: int, ring: seq<int>, blocks: Blocks, bp: int, k: nat, ring': seq<int>, blocks': Blocks, u: int)
    requires Ordered(base, ring, blocks) && bp in blocks && bp !in ring && TouchesNext(ring, blocks, bp, k)
    requires ring' == RingWithout(ring, k + 1) && blocks' == Join(blocks, bp, ring[k + 1]) && FreeUnit(ring, blocks, u)
    ensures FreeUnit(ring', blocks', u) || In(bp, blocks'[bp], u)
  {
    RingElements(base, ring, blocks, k + 1);
    var i :| 1 <= i < |ring| && ring[i] in blocks && In(ring[i], blocks[ring[i]], u);
    if i != k + 1 {
      var j := if i <= k then i else i - 1;
      assert ring'[j] == ring[i] && ring[i] in ring;
      assert In(ring'[j], blocks'[ring'[j]], u);
    }
  }

  lemma FreeAfterJoin(base: int, ring: seq<int>, blocks: Blocks, bp: int, k: nat, ring': seq<int>, blocks': Blocks, u: int)
    requires Ordered(base, ring, blocks) && bp in blocks && bp !in ring && TouchesNext(ring, blocks, bp, k)
    requires ring' == RingWithout(ring, k + 1) && blocks' == Join(blocks, bp, ring[k + 1]) && FreeUnit(ring', blocks', u)
    ensures FreeUnit(ring, blocks, u)
  {
    RingElements(base, ring, blocks, k + 1);
    var i :| 1 <= i < |ring'| && ring'[i] in blocks' && In(ring'[i], blocks'[ring'[i]], u);
    var j := if i <= k then i else i + 1;
    assert ring[j] == ring'[i] && ring[j] in ring;
    assert In(ring[j], blocks[ring[j]], u);
  }

  lemma FreeAfterJoinNext(base: int, ring: seq<int>, blocks: Blocks, units: set<int>, bp: int, k: nat, ring': seq<int>, blocks': Blocks, u: int)
    requires Pending(base, ring, blocks, units, bp, k) && TouchesNext(ring, blocks, bp, k)
    requires ring' == RingWithout(ring, k + 1) && blocks' == Join(blocks, bp, ring[k + 1])
    ensures FreeUnit(ring', blocks', u) || In(bp, blocks'[bp], u) <==> FreeUnit(ring, blocks, u) || In(bp, blocks[bp], u)
  {
    hide Tiled, Ordered;
    if FreeUnit(ring, blocks, u) {
      FreeBeforeJoin(base, ring, blocks, bp, k, ring', blocks', u);
    }
    if FreeUnit(ring', blocks', u) {
      FreeAfterJoin(base, ring, blocks, bp, k, ring', blocks', u);
    }
    if In(ring[k + 1], blocks[ring[k + 1]], u) {
      assert FreeUnit(ring, blocks, u);
    }
  }

  lemma FreeAfterJoinPrev(base: int, ring: seq<int>, blocks: Blocks, units: set<int>, bp: int, k: nat, blocks': Blocks, u: int)
    requires Pending(base, ring, blocks, units, bp, k)
    requires 1 <= k && ring[k] in blocks && ring[k] + blocks[ring[k]] == bp && blocks' == Join(blocks, ring[k], bp)
    ensures FreeUnit(ring, blocks', u) <==> FreeUnit(ring, blocks, u) || In(bp, blocks[bp], u)
  {
    hide Tiled;
    if FreeUnit(ring, blocks, u) {
      var i :| 1 <= i < |ring| && ring[i] in blocks && In(ring[i], blocks[ring[i]], u);
      assert ring[i] in ring && In(ring[i], blocks'[ring[i]], u);
    }
    if In(bp, blocks[bp], u) {
      assert In(ring[k], blocks'[ring[k]], u);
    }
    if FreeUnit(ring, blocks', u) {
      var i :| 1 <= i < |ring| && ring[i] in blocks' && In(ring[i], blocks'[ring[i]], u);
      assert ring[i] in ring;
      assert i != k ==> In(ring[i], blocks[ring[i]], u);
      assert i == k && !In(bp, blocks[bp], u) ==> In(ring[k], blocks[ring[k]], u);
    }
  }

  lemma FreeAfterInsert(ring: seq<int>, blocks: Blocks, bp: int, k: nat, u: int)
    requires bp in blocks && k < |ring|
    ensures FreeUnit(RingWith(ring, k + 1, bp), blocks, u) <==> FreeUnit(ring, blocks, u) || In(bp, blocks[bp], u)
  {
    var ring' := RingWith(ring, k + 1, bp);
    assert ring'[k + 1] == bp;
    if FreeUnit(ring, blocks, u) {
      var i :| 1 <= i < |ring| && ring[i] in blocks && In(ring[i], blocks[ring[i]], u);
      assert ring'[if i <= k then i else i + 1] == ring[i];
    }
    if FreeUnit(ring', blocks, u) {
      var i :| 1 <= i < |ring'| && ring'[i] in blocks && In(ring'[i], blocks[ring'[i]], u);
      assert i != k + 1 ==> ring'[i] == ring[if i <= k then i else i - 1];
    }
  }

  // ---- the headers during free ----

  /** Headers, but ring[k]'s pointer is still to be set; bp's already points past the gap. */
  ghost predicate HeadersBut(base: int, ring: seq<int>, blocks: Blocks, mem: map<int, Header>, k: nat, bp: int) {
    && k < |ring| && base in mem && mem[base].size == 0
    && ring[k] in mem && (forall i :: 0 <= i < |ring| && i != k ==> Points(mem, ring, i))
    && (forall a: int :: a in blocks ==> a in mem && mem[a].size == blocks[a])
    && bp in mem && mem[bp].ptr == ring[Next(|ring|, k)]
  }

  lemma HeadersJoinNext(base: int, ring: seq<int>, blocks: Blocks, mem: map<int, Header>, bp: int, k: nat, ring': seq<int>, blocks': Blocks)
    requires Ordered(base, ring, blocks) && Headers(base, ring, blocks, mem) && bp in blocks && bp !in ring && TouchesNext(ring, blocks, bp, k) && ring[k + 1] in mem
    requires ring' == RingWithout(ring, k + 1) && blocks' == Join(blocks, bp, ring[k + 1])
    ensures HeadersBut(base, ring', blocks', mem[bp := Header(mem[ring[k + 1]].ptr, blocks[bp] + blocks[ring[k + 1]])], k, bp)
  {
    var n, mem' := |ring|, mem[bp := Header(mem[ring[k + 1]].ptr, blocks[bp] + blocks[ring[k + 1]])];
    RingElements(base, ring, blocks, k + 1);
    assert ring[0] in ring;
    forall i | 0 <= i < |ring'| && i != k ensures Points(mem', ring', i) {
      var j := if i <= k then i else i + 1;
      assert ring'[i] == ring[j] && ring[j] in ring && Points(mem, ring, j);
    }
    assert Points(mem, ring, k) && Points(mem, ring, k + 1) && ring[k] in ring;
  }

  lemma HeadersKeepNext(base: int, ring: seq<int>, blocks: Blocks, mem: map<int, Header>, bp: int, k: nat)
    requires Ordered(base, ring, blocks) && Headers(base, ring, blocks, mem) && bp in blocks && bp !in ring && k < |ring| && ring[k] in mem
    ensures HeadersBut(base, ring, blocks, mem[bp := Header(mem[ring[k]].ptr, blocks[bp])], k, bp)
  {
    var mem' := mem[bp := Header(mem[ring[k]].ptr, blocks[bp])];
    assert ring[0] in ring && ring[k] in ring && Points(mem, ring, k);
    forall i | 0 <= i < |ring| && i != k ensures Points(mem', ring, i) {
      assert ring[i] in ring && Points(mem, ring, i);
    }
  }

  lemma HeadersJoinPrev(base: int, ring: seq<int>, blocks: Blocks, mem: map<int, Header>, bp: int, k: nat, blocks': Blocks)
    requires Ordered(base, ring, blocks) && HeadersBut(base, ring, blocks, mem, k, bp) && bp in blocks && bp !in ring
    requires 1 <= k && ring[k] in blocks && blocks' == Join(blocks, ring[k], bp)
    ensures Headers(base, ring, blocks', mem[ring[k] := Header(mem[bp].ptr, blocks[ring[k]] + blocks[bp])])
  {
    var mem' := mem[ring[k] := Header(mem[bp].ptr, blocks[ring[k]] + blocks[bp])];
    assert ring[0] < ring[k];
    forall i | 0 <= i < |ring| ensures Points(mem', ring, i) {
      assert i < k ==> ring[i] < ring[k];
      assert k < i ==> ring[k] < ring[i];
      assert i != k ==> Points(mem, ring, i);
    }
  }

  lemma HeadersInsert(base: int, ring: seq<int>, blocks: Blocks, mem: map<int, Header>, bp: int, k: nat, ring': seq<int>)
    requires Ordered(base, ring, blocks) && HeadersBut(base, ring, blocks, mem, k, bp) && bp in blocks && bp !in ring
    requires ring' == RingWith(ring, k + 1, bp)
    ensures Headers(base, ring', blocks, mem[ring[k] := Header(bp, mem[ring[k]].size)])
  {
    var n, mem' := |ring|, mem[ring[k] := Header(bp, mem[ring[k]].size)];
    assert ring[k] in ring;
    forall i | 0 <= i < n && i != k ensures ring[i] != ring[k] {
      assert i < k ==> ring[i] < ring[k];
      assert k < i ==> ring[k] < ring[i];
    }
    forall i | 0 <= i < |ring'| ensures Points(mem', ring', i) {
      if i != k + 1 {
        var j := if i <= k then i else i - 1;
        assert ring'[i] == ring[j];
        assert j != k ==> Points(mem, ring, j);
      }
    }
  }

  // ---- free ----

  lemma {:induction false} PlaceExists(base: int, ring: seq<int>, blocks: Blocks, bp: int, from: nat) returns (k: nat)
    requires Ordered(base, ring, blocks) && bp !in ring && from < |ring| && ring[from] < bp
    ensures from <= k < |ring| && ring[k] < bp && (k + 1 < |ring| ==> bp < ring[k + 1])
    decreases |ring| - from
  {
    if from + 1 < |ring| && ring[from + 1] <= bp {
      assert ring[from + 1] in ring;
      k := PlaceExists(base, ring, blocks, bp, from + 1);
    } else {
      k := from;
    }
  }

  /** Steps round a ring of n from i to j. */
  function Distance(n: nat, i: nat, j: nat): (d: nat)
    requires i < n && j < n
  {
    if i <= j then j - i else j + n - i
  }

  class Heap {
    const base: int
    var freep: int                   // 0 until the first malloc
    var mem: map<int, Header>
    ghost var ring: seq<int>         // the free list from base on
    ghost var blocks: Blocks         // free and allocated blocks
    ghost var units: set<int>        // everything the list was told sbrk gave

    ghost predicate Valid()
      reads this
    {
      && 0 < base
      && (freep == 0 ==> ring == [] && blocks == map[] && units == {})
      && (freep != 0 ==> Tiled(base, blocks, units) && Ordered(base, ring, blocks) && Headers(base, ring, blocks, mem) && freep in ring)
    }

    /** The units all lie inside a process of sz bytes. */
    ghost predicate Backed(sz: nat)
      reads this
    {
      forall u: int :: u in units ==> u < sz / HEADER
    }

    /** Blocks handed out and not yet freed. */
    ghost predicate Live(a: int)
      reads this
    {
      a in blocks && a !in ring
    }

    constructor (base: int)
      requires 0 < base
      ensures Valid() && this.base == base && freep == 0
    {
      this.base, freep, mem := base, 0, map[];
      ring, blocks, units := [], map[], {};
    }

    /** free's search for the list element below bp. */
    method FindPlace(bp: int) returns (p: int, ghost k: nat)
      requires Valid() && freep != 0 && Live(bp)
      ensures k < |ring| && p == ring[k] && Pending(base, ring, blocks, units, bp, k)
    {
      hide Tiled;
      TiledApart(base, blocks, units);
      ghost var n := |ring|;
      ghost var goal := PlaceExists(base, ring, blocks, bp, 0);
      p := freep;
      k :| 0 <= k < |ring| && ring[k] == freep;
      assert Points(mem, ring, k);
      while !(bp > p && bp < mem[p].ptr)
        invariant k < n && p == ring[k] && Points(mem, ring, k)
        decreases Distance(n, k, goal)
      {
        if p >= mem[p].ptr && (bp > p || bp < mem[p].ptr) {
          assert k == n - 1;
          break;
        }
        assert k != goal;
        p := mem[p].ptr;
        k := Next(n, k);
        assert Points(mem, ring, k);
      }
    }

    /** First half of free's merging: set bp's pointer, swallowing the right neighbour if adjacent. */
    method MergeNext(bp: int, p: int, ghost k: nat)
      requires Valid() && freep != 0 && Pending(base, ring, blocks, units, bp, k) && p == ring[k]
      modifies this`mem, this`ring, this`blocks
      ensures Pending(base, ring, blocks, units, bp, k) && p == ring[k] && !TouchesNext(ring, blocks, bp, k)
      ensures HeadersBut(base, ring, blocks, mem, k, bp)
      ensures forall a: int :: Live(a) <==> old(Live(a))
      ensures forall a: int :: Live(a) ==> a in old(blocks) && blocks[a] >= old(blocks)[a] && (a != bp ==> blocks[a] == old(blocks)[a])
      ensures forall u: int :: FreeUnit(ring, blocks, u) || In(bp, blocks[bp], u) <==> old(FreeUnit(ring, blocks, u)) || old(In(bp, blocks[bp], u))
    {
      hide Tiled, FreeUnit, In, Headers, HeadersBut, Pending;
      PendingFacts(base, ring, blocks, units, bp, k);
      HeaderFacts(base, ring, blocks, mem, k, bp);
      if bp + mem[bp].size == mem[p].ptr {
        Swallow(bp, p, k);
      } else {
        HeadersKeepNext(base, ring, blocks, mem, bp, k);
        mem := mem[bp := Header(mem[p].ptr, mem[bp].size)];
      }
    }

    /** bp takes in the free block right behind it. */
    method Swallow(bp: int, p: int, ghost k: nat)
      requires Valid() && freep != 0 && Pending(base, ring, blocks, units, bp, k) && p == ring[k]
      requires p in mem && bp in mem && bp + mem[bp].size == mem[p].ptr
      modifies this`mem, this`ring, this`blocks
      ensures Pending(base, ring, blocks, units, bp, k) && p == ring[k] && !TouchesNext(ring, blocks, bp, k)
      ensures HeadersBut(base, ring, blocks, mem, k, bp)
      ensures forall a: int :: Live(a) <==> old(Live(a))
      ensures forall a: int :: Live(a) ==> a in old(blocks) && blocks[a] >= old(blocks)[a] && (a != bp ==> blocks[a] == old(blocks)[a])
      ensures forall u: int :: FreeUnit(ring, blocks, u) || In(bp, blocks[bp], u) <==> old(FreeUnit(ring, blocks, u)) || old(In(bp, blocks[bp], u))
    {
      hide Tiled, FreeUnit, In, Headers, HeadersBut, Pending, Ordered, RingWithout;
      PendingFacts(base, ring, blocks, units, bp, k);
      HeaderFacts(base, ring, blocks, mem, k, bp);
      ghost var ring0, blocks0 := ring, blocks;
      var next := mem[p].ptr;
      ring, blocks := RingWithout(ring0, k + 1), Join(blocks0, bp, next);
      StaysBefore(ring0, k);
      JoinNext(base, ring0, blocks0, units, bp, k, ring, blocks);
      HeadersJoinNext(base, ring0, blocks0, mem, bp, k, ring, blocks);
      forall u: int ensures FreeUnit(ring, blocks, u) || In(bp, blocks[bp], u) <==> FreeUnit(ring0, blocks0, u) || In(bp, blocks0[bp], u) {
        FreeAfterJoinNext(base, ring0, blocks0, units, bp, k, ring, blocks, u);
      }
      forall a: int
        ensures Live(a) <==> a in blocks0 && a !in ring0
        ensures Live(a) ==> a in blocks0 && blocks[a] >= blocks0[a] && (a != bp ==> blocks[a] == blocks0[a])
      {
        LiveAfterJoinNext(base, ring0, blocks0, bp, k, ring, blocks, a);
      }
      mem := mem[bp := Header(mem[next].ptr, mem[bp].size + mem[next].size)];
    }

    /** Second half: link bp behind p, or let p swallow it if adjacent. */
    method MergePrev(bp: int, p: int, ghost k: nat)
      requires 0 < base && Pending(base, ring, blocks, units, bp, k) && p == ring[k] && !TouchesNext(ring, blocks, bp, k)
      requires HeadersBut(base, ring, blocks, mem, k, bp)
      modifies this
      ensures Valid() && freep == p && 0 < p && units == old(units)
      ensures forall a: int :: Live(a) <==> old(Live(a)) && a != bp
      ensures forall a: int :: Live(a) ==> a in old(blocks) && blocks[a] == old(blocks)[a]
      ensures forall u: int :: FreeUnit(ring, blocks, u) <==> old(FreeUnit(ring, blocks, u)) || old(In(bp, blocks[bp], u))
      ensures exists i :: 1 <= i < |ring| && ring[i] in blocks && blocks[ring[i]] >= old(blocks[bp])
    {
      hide Tiled, FreeUnit, In, Headers, HeadersBut, Pending;
      PendingFacts(base, ring, blocks, units, bp, k);
      HeadersButFacts(base, ring, blocks, mem, k, bp);
      ghost var ring0, blocks0 := ring, blocks;
      if p + mem[p].size == bp {
        blocks := Join(blocks0, p, bp);
        JoinPrev(base, ring, blocks0, units, bp, k, blocks);
        HeadersJoinPrev(base, ring, blocks0, mem, bp, k, blocks);
        forall u: int ensures FreeUnit(ring, blocks, u) <==> FreeUnit(ring, blocks0, u) || In(bp, blocks0[bp], u) {
          FreeAfterJoinPrev(base, ring, blocks0, units, bp, k, blocks, u);
        }
        mem := mem[p := Header(mem[bp].ptr, mem[p].size + mem[bp].size)];
        assert ring[k] in blocks && blocks[ring[k]] >= blocks0[bp];
      } else {
        ring := RingWith(ring0, k + 1, bp);
        Insert(base, ring0, blocks, units, bp, k, ring);
        HeadersInsert(base, ring0, blocks, mem, bp, k, ring);
        forall u: int ensures FreeUnit(ring, blocks, u) <==> FreeUnit(ring0, blocks, u) || In(bp, blocks[bp], u) {
          FreeAfterInsert(ring0, blocks, bp, k, u);
        }
        forall a: int ensures a in ring <==> a in ring0 || a == bp {
          WithMembers(ring0, k + 1, bp, a);
        }
        mem := mem[p := Header(bp, mem[p].size)];
        assert ring[k + 1] == bp;
        assert ring[k] == p;
      }
      freep := p;
      assert p in ring;
      assert k > 0 ==> ring0[0] < ring0[k];
    }

    /** free: the block's units join the free units, merged with free neighbours. */
    method Free(ap: int)
      requires Valid() && freep != 0 && Live(ap - 1)
      modifies this
      ensures Valid() && freep != 0 && units == old(units)
      ensures forall a: int :: Live(a) <==> old(Live(a)) && a != ap - 1
      ensures forall a: int :: Live(a) ==> a in old(blocks) && blocks[a] == old(blocks)[a]
      ensures forall u: int :: FreeUnit(ring, blocks, u) <==> old(FreeUnit(ring, blocks, u)) || old(In(ap - 1, blocks[ap - 1], u))
      ensures exists i :: 1 <= i < |ring| && ring[i] in blocks && blocks[ring[i]] >= old(blocks)[ap - 1]
    {
      hide Tiled, Ordered, FreeUnit, In, Headers, HeadersBut;
      var bp := ap - 1;
      var p, k := FindPlace(bp);
      MergeNext(bp, p, k);
      assert Live(bp);
      MergePrev(bp, p, k);
    }

    /** morecore, in a process of sz bytes; roomy tells whether the kernel has pages enough.  Whatever sbrk was
        really asked for, the list grows by Grow(nunits) units from the old end of the process. */
    method Morecore(nunits: nat, sz: nat, roomy: bool) returns (ok: bool, sz': nat)
      requires Valid() && freep != 0 && Backed(sz) && base < sz / HEADER
      modifies this
      ensures Valid() && freep != 0
      ensures ok <==> Growproc(sz, Request(Grow(nunits)), roomy) != -1
      ensures sz' == if ok then Growproc(sz, Request(Grow(nunits)), roomy) else sz
      ensures !ok ==> mem == old(mem) && freep == old(freep) && ring == old(ring) && blocks == old(blocks) && units == old(units)
      ensures ok ==>
                && units == old(units) + UnitsOf(sz / HEADER, Grow(nunits))
                && (forall a: int :: Live(a) <==> old(Live(a)))
                && (forall a: int :: Live(a) ==> a in old(blocks) && blocks[a] == old(blocks)[a])
                && (forall u: int :: FreeUnit(ring, blocks, u) <==> old(FreeUnit(ring, blocks, u)) || In(sz / HEADER, Grow(nunits), u))
                && exists i :: 1 <= i < |ring| && ring[i] in blocks && blocks[ring[i]] >= nunits
    {
      hide Tiled, Headers, FreeUnit, Ordered, Growproc, Request;
      var nu := Grow(nunits);
      var g := Growproc(sz, Request(nu), roomy);
      if g == -1 {
        return false, sz;
      }
      ghost var ring0, blocks0 := ring, blocks;
      var brk := sz / HEADER;
      ghost var more := UnitsOf(brk, nu);
      GrowTiles(base, blocks0, units, brk, nu, more);
      NewBlock(base, ring0, blocks0, units, mem, brk, nu);
      mem := mem[brk := Header(0, nu)];
      blocks := blocks0[brk := nu];
      units := units + more;
      forall u: int ensures FreeUnit(ring, blocks, u) <==> FreeUnit(ring0, blocks0, u) {
        NewBlockNotFree(base, ring0, blocks0, brk, nu, u);
      }
      Free(brk + 1);
      return true, g;
    }

    /** malloc on an exact fit: unlink p. */
    method TakeWhole(nunits: nat, prevp: int, p: int, ghost k: nat) returns (bp: int)
      requires Valid() && freep != 0 && 1 <= k < |ring| && p == ring[k] && prevp == ring[k - 1] && 1 <= nunits == blocks[p]
      modifies this
      ensures Valid() && freep != 0 && units == old(units)
      ensures Live(bp) && !old(Live(bp)) && blocks[bp] == nunits
      ensures forall a: int :: Live(a) <==> old(Live(a)) || a == bp
      ensures forall a: int :: old(Live(a)) ==> a in blocks && a in old(blocks) && blocks[a] == old(blocks)[a]
      ensures forall u: int :: FreeUnit(ring, blocks, u) <==> old(FreeUnit(ring, blocks, u)) && !In(bp, nunits, u)
      ensures forall u: int :: In(bp, nunits, u) ==> old(FreeUnit(ring, blocks, u))
    {
      hide Tiled, Headers, FreeUnit, In, Ordered;
      ghost var ring0 := ring;
      TiledApart(base, blocks, units);
      FromBase(base, ring, blocks, k);
      FromBase(base, ring, blocks, k - 1);
      OrderedAt(base, ring, blocks, k);
      HeadersAt(base, ring, blocks, mem, k);
      ring := RingWithout(ring0, k);
      DropKeepsOrder(base, ring0, blocks, k);
      RingElements(base, ring0, blocks, k);
      HeadersDrop(base, ring0, blocks, mem, k);
      forall a: int ensures a in ring <==> a in ring0 && a != p {
        WithoutMembers(ring0, k, a);
      }
      forall u: int ensures FreeUnit(ring, blocks, u) <==> FreeUnit(ring0, blocks, u) && !In(p, nunits, u) {
        FreeAfterDrop(base, ring0, blocks, units, k, u);
      }
      TailFree(ring0, blocks, k, nunits);
      mem := mem[prevp := Header(mem[p].ptr, mem[prevp].size)];
      freep := prevp;
      bp := p;
    }

    /** malloc on a larger block: cut off its last nunits units. */
    method TakeEnd(nunits: nat, prevp: int, p: int, ghost k: nat) returns (bp: int)
      requires Valid() && freep != 0 && 1 <= k < |ring| && p == ring[k] && prevp == ring[k - 1] && 1 <= nunits < blocks[p]
      modifies this
      ensures Valid() && freep != 0 && units == old(units)
      ensures Live(bp) && !old(Live(bp)) && blocks[bp] == nunits
      ensures forall a: int :: Live(a) <==> old(Live(a)) || a == bp
      ensures forall a: int :: old(Live(a)) ==> a in blocks && a in old(blocks) && blocks[a] == old(blocks)[a]
      ensures forall u: int :: FreeUnit(ring, blocks, u) <==> old(FreeUnit(ring, blocks, u)) && !In(bp, nunits, u)
      ensures forall u: int :: In(bp, nunits, u) ==> old(FreeUnit(ring, blocks, u))
    {
      hide Tiled, Headers, FreeUnit, In, Ordered;
      ghost var blocks0 := blocks;
      TiledApart(base, blocks0, units);
      FromBase(base, ring, blocks0, k);
      FromBase(base, ring, blocks0, k - 1);
      HeadersAt(base, ring, blocks, mem, k);
      CutTiles(base, blocks0, units, p, nunits);
      CutKeepsList(base, ring, blocks0, mem, k, nunits);
      bp := p + mem[p].size - nunits;
      blocks := Cut(blocks0, p, nunits);
      forall u: int ensures FreeUnit(ring, blocks, u) <==> FreeUnit(ring, blocks0, u) && !In(bp, nunits, u) {
        FreeAfterCut(base, ring, blocks0, units, k, nunits, u);
      }
      TailFree(ring, blocks0, k, nunits);
      mem := mem[p := Header(mem[p].ptr, mem[p].size - nunits)];
      mem := mem[bp := Header(if bp in mem then mem[bp].ptr else 0, nunits)];
      freep := prevp;
    }

    /** malloc's set-up on the first call. */
    method Start()
      requires Valid()
      modifies this
      ensures Valid() && freep != 0 && blocks == old(blocks) && units == old(units)
      ensures old(freep) != 0 ==> freep == old(freep) && ring == old(ring) && mem == old(mem)
      ensures old(freep) == 0 ==> ring == [base]
    {
      if freep == 0 {
        freep := base;
        mem := map[base := Header(base, 0)];
        ring := [base];
      }
    }

    /** One trip of malloc's loop round the list, from behind freep back to it: the first block
        large enough, if any. */
    method Search(nunits: nat) returns (found: bool, prevp: int, p: int, ghost k: nat)
      requires Valid() && freep != 0 && nunits >= 1
      ensures !found ==> NoneFits(ring, blocks, nunits)
      ensures found ==> 1 <= k < |ring| && p == ring[k] && prevp == ring[k - 1] && p in blocks && blocks[p] >= nunits
    {
      hide Tiled, Ordered, Points;
      ghost var n := |ring|;
      ghost var f :| 0 <= f < n && ring[f] == freep;
      ListSizes(base, ring, blocks, mem);
      PointsAt(mem, ring, f);
      prevp := freep;
      p := mem[prevp].ptr;
      k := Next(n, f);
      ghost var seen := 0;
      while true
        invariant 0 <= seen < n && k == (if f + 1 + seen < n then f + 1 + seen else f + 1 + seen - n)
        invariant k < n && p == ring[k] && prevp == ring[if k == 0 then n - 1 else k - 1]
        invariant forall i :: 0 <= i < n && (f < i <= f + seen || i <= f + seen - n) ==> SizeAt(ring, blocks, i) < nunits
        decreases n - seen
      {
        PointsAt(mem, ring, k);
        if mem[p].size >= nunits {
          assert SizeAt(ring, blocks, k) >= nunits;
          FromBase(base, ring, blocks, k);
          return true, prevp, p, k;
        }
        assert SizeAt(ring, blocks, k) < nunits;
        if p == freep {
          SameElement(base, ring, blocks, k, f);
          assert forall i :: 0 <= i < n ==> SizeAt(ring, blocks, i) < nunits;
          return false, 0, 0, 0;
        }
        assert k != f;
        prevp := p;
        p := mem[p].ptr;
        k := Next(n, k);
        seen := seen + 1;
      }
    }

    /** malloc, in a process of sz bytes.  On success the result points behind the header of a fresh block of
        Units(nbytes) units, taken from the free units; sbrk is asked at most once, and only when no free
        block is large enough.  The block is memory the process has, and so is everything on the list from
        then on, exactly when sbrk was not asked or the request in bytes fits an int. */
    method Malloc(nbytes: nat, sz: nat, roomy: bool) returns (r: int, sz': nat)
      requires Valid() && nbytes < WORD && Backed(sz) && base < sz / HEADER && sz < KERNBASE
      modifies this
      ensures Valid() && freep != 0
      ensures !NoneFits(old(ring), old(blocks), Units(nbytes)) ==> r != 0 && sz' == sz && units == old(units)
      ensures NoneFits(old(ring), old(blocks), Units(nbytes)) ==>
                var g := Growproc(sz, Request(Grow(Units(nbytes))), roomy);
                && (r == 0 <==> g == -1) && sz' == (if g == -1 then sz else g)
                && units == if g == -1 then old(units) else old(units) + UnitsOf(sz / HEADER, Grow(Units(nbytes)))
      ensures forall a: int :: old(Live(a)) ==> a in blocks && a in old(blocks) && blocks[a] == old(blocks)[a]
      ensures r == 0 ==>
                && (forall a: int :: Live(a) <==> old(Live(a)))
                && (forall u: int :: FreeUnit(ring, blocks, u) <==> old(FreeUnit(ring, blocks, u)))
      ensures r != 0 ==>
                && Live(r - 1) && !old(Live(r - 1)) && blocks[r - 1] == Units(nbytes)
                && (forall a: int :: Live(a) <==> old(Live(a)) || a == r - 1)
                && (forall u: int :: FreeUnit(ring, blocks, u) <==> (old(FreeUnit(ring, blocks, u)) || u in units - old(units)) && !In(r - 1, Units(nbytes), u))
      ensures r != 0 ==> (r - 1 + Units(nbytes) <= sz' / HEADER <==> !NoneFits(old(ring), old(blocks), Units(nbytes)) || Grow(Units(nbytes)) * HEADER < KERNBASE)
      ensures Backed(sz') <==> r == 0 || !NoneFits(old(ring), old(blocks), Units(nbytes)) || Grow(Units(nbytes)) * HEADER < KERNBASE
    {
      hide Tiled, Ordered, FreeUnit, In, Headers, NoneFits, Units, Grow, Growproc, Request, UnitsOf;
      var nunits := Units(nbytes);
      UnitsBound(nbytes);
      sz' := sz;
      Start();
      OnlyBase(old(ring), ring, blocks, base, nunits);
      ghost var ring0, blocks0 := ring, blocks;
      var found, prevp, p, k := Search(nunits);
      if !found {
        var ok;
        ok, sz' := Morecore(nunits, sz, roomy);
        if !ok {
          return 0, sz';
        }
        GrowCovers(sz, nunits, roomy);
        FreshUnits(old(units), sz / HEADER, Grow(nunits));
        BackedAfter(old(units), sz, Grow(nunits), sz');
        found, prevp, p, k := Search(nunits);
        BigBlockFits(ring, blocks, nunits);
      } else {
        SomeFits(ring, blocks, nunits, k);
      }
      var bp := TakeFit(nunits, prevp, p, k);
      FromBasePositive(base, blocks, units, bp);
      BlockInside(base, blocks, units, bp);
      if units != old(units) {
        NoRoomBelow(base, ring0, blocks0, old(units), nunits, bp, sz / HEADER, Grow(nunits));
      }
      r := bp + 1;
    }

    method TakeFit(nunits: nat, prevp: int, p: int, ghost k: nat) returns (bp: int)
      requires Valid() && freep != 0 && 1 <= k < |ring| && p == ring[k] && prevp == ring[k - 1] && 1 <= nunits <= blocks[p]
      modifies this
      ensures Valid() && freep != 0 && units == old(units)
      ensures Live(bp) && !old(Live(bp)) && blocks[bp] == nunits
      ensures forall a: int :: Live(a) <==> old(Live(a)) || a == bp
      ensures forall a: int :: old(Live(a)) ==> a in blocks && a in old(blocks) && blocks[a] == old(blocks)[a]
      ensures forall u: int :: FreeUnit(ring, blocks, u) <==> old(FreeUnit(ring, blocks, u)) && !In(bp, nunits, u)
      ensures forall u: int :: In(bp, nunits, u) ==> old(FreeUnit(ring, blocks, u))
    {
      hide Tiled, Ordered, FreeUnit, In;
      FromBase(base, ring, blocks, k);
      if mem[p].size == nunits {
        bp := TakeWhole(nunits, prevp, p, k);
      } else {
        bp := TakeEnd(nunits, prevp, p, k);
      }
    }
  }

  /** The size in the header of list element i. */
  ghost function SizeAt(ring: seq<int>, blocks: Blocks, i: nat): (n: nat) {
    if 1 <= i < |ring| && ring[i] in blocks then blocks[ring[i]] else 0
  }

  lemma ListSizes(base: int, ring: seq<int>, blocks: Blocks, mem: map<int, Header>)
    requires Ordered(base, ring, blocks) && Headers(base, ring, blocks, mem)
    ensures forall i :: 0 <= i < |ring| ==> ring[i] in mem && mem[ring[i]].size == SizeAt(ring, blocks, i)
    ensures forall i :: 0 <= i < |ring| ==> Points(mem, ring, i)
  {
  }

  lemma PointsAt(mem: map<int, Header>, ring: seq<int>, i: nat)
    requires Points(mem, ring, i)
    ensures i < |ring| && ring[i] in mem && mem[ring[i]].ptr == ring[Next(|ring|, i)]
  {
  }

  lemma SameElement(base: int, ring: seq<int>, blocks: Blocks, i: nat, j: nat)
    requires Ordered(base, ring, blocks) && i < |ring| && j < |ring| && ring[i] == ring[j]
    ensures i == j
  {
  }

  /** The first call's list of base alone has nothing to offer, like the empty one. */
  lemma OnlyBase(ring0: seq<int>, ring: seq<int>, blocks: Blocks, base: int, nunits: nat)
    requires ring == ring0 || (ring0 == [] && ring == [base] && base !in blocks)
    ensures NoneFits(ring, blocks, nunits) <==> NoneFits(ring0, blocks, nunits)
    ensures forall u: int :: FreeUnit(ring, blocks, u) <==> FreeUnit(ring0, blocks, u)
  {
  }

  lemma SomeFits(ring: seq<int>, blocks: Blocks, nunits: nat, k: nat)
    requires 1 <= k < |ring| && ring[k] in blocks && blocks[ring[k]] >= nunits
    ensures !NoneFits(ring, blocks, nunits)
  {
  }

  lemma TailFree(ring: seq<int>, blocks: Blocks, k: nat, n: nat)
    requires 1 <= k < |ring| && ring[k] in blocks && n <= blocks[ring[k]]
    ensures forall u: int :: In(ring[k] + blocks[ring[k]] - n, n, u) ==> FreeUnit(ring, blocks, u)
  {
  }

  /** New units lie inside the process exactly if it has grown over them. */
  lemma BackedAfter(units: set<int>, sz: nat, n: nat, sz': nat)
    requires n >= 1 && (forall u: int :: u in units ==> u < sz / HEADER) && (sz' == sz + n * HEADER || sz' <= sz)
    ensures (forall u: int :: u in units + UnitsOf(sz / HEADER, n) ==> u < sz' / HEADER) <==> sz' == sz + n * HEADER
    ensures sz / HEADER in units + UnitsOf(sz / HEADER, n) && sz / HEADER !in units
  {
    assert In(sz / HEADER, n, sz / HEADER);
    assert sz / HEADER in units + UnitsOf(sz / HEADER, n);
    if sz' <= sz {
      assert sz' / HEADER <= sz / HEADER;
    } else {
      assert sz' / HEADER == sz / HEADER + n;
      forall u: int | u in units + UnitsOf(sz / HEADER, n) ensures u < sz' / HEADER {
      }
    }
  }

  lemma BlockInside(base: int, blocks: Blocks, units: set<int>, a: int)
    requires Tiled(base, blocks, units) && a in blocks
    ensures a + blocks[a] - 1 in units
  {
    assert In(a, blocks[a], a + blocks[a] - 1);
  }

  /** A run of free units lies in one free block: free blocks do not touch. */
  lemma {:induction false} RunInBlock(base: int, ring: seq<int>, blocks: Blocks, units: set<int>, a: int, n: nat) returns (i: nat)
    requires Tiled(base, blocks, units) && Ordered(base, ring, blocks) && n >= 1 && forall u: int :: In(a, n, u) ==> FreeUnit(ring, blocks, u)
    ensures 1 <= i < |ring| && ring[i] in blocks && ring[i] <= a && a + n <= ring[i] + blocks[ring[i]]
    decreases n
  {
    hide Tiled, Ordered;
    assert In(a, n, a + n - 1);
    if n == 1 {
      assert FreeUnit(ring, blocks, a);
      i :| 1 <= i < |ring| && ring[i] in blocks && In(ring[i], blocks[ring[i]], a);
    } else {
      forall u: int | In(a, n - 1, u) ensures FreeUnit(ring, blocks, u) {
        assert In(a, n, u);
      }
      i := RunInBlock(base, ring, blocks, units, a, n - 1);
      var j :| 1 <= j < |ring| && ring[j] in blocks && In(ring[j], blocks[ring[j]], a + n - 1);
      NotSplit(base, ring, blocks, units, i, j, a + n - 1);
    }
  }

  /** No free block begins where another one ends. */
  lemma NotSplit(base: int, ring: seq<int>, blocks: Blocks, units: set<int>, i: nat, j: nat, u: int)
    requires Tiled(base, blocks, units) && Ordered(base, ring, blocks) && 1 <= i < |ring| && 1 <= j < |ring| && ring[i] in blocks && ring[j] in blocks
    requires In(ring[i], blocks[ring[i]], u - 1) && In(ring[j], blocks[ring[j]], u)
    ensures i == j
  {
    TiledApart(base, blocks, units);
    NextInOrder(base, ring, blocks, i, j);
    hide Tiled, Ordered;
  }

  lemma NextInOrder(base: int, ring: seq<int>, blocks: Blocks, i: nat, j: nat)
    requires Ordered(base, ring, blocks) && 1 <= i < |ring| && 1 <= j < |ring| && ring[i] in blocks
    ensures j < i ==> ring[j] < ring[i]
    ensures i < j ==> i + 1 < |ring| && ring[i] < ring[i + 1] <= ring[j] && ring[i + 1] in blocks && ring[i] + blocks[ring[i]] != ring[i + 1]
    ensures i + 1 < j ==> ring[i + 1] < ring[j]
  {
  }

  /** Where no free block fits, a block made of free units and of new ones has a new one. */
  lemma NoRoomBelow(base: int, ring: seq<int>, blocks: Blocks, units: set<int>, nunits: nat, bp: int, brk: int, n: nat)
    requires Tiled(base, blocks, units) && Ordered(base, ring, blocks) && nunits >= 1 && NoneFits(ring, blocks, nunits)
    requires forall u: int :: In(bp, nunits, u) ==> FreeUnit(ring, blocks, u) || In(brk, n, u)
    ensures bp + nunits > brk
  {
    hide Tiled, Ordered, FreeUnit;
    if bp + nunits <= brk {
      var i := RunInBlock(base, ring, blocks, units, bp, nunits);
      assert false;
    }
  }

  lemma FreshUnits(units: set<int>, brk: int, n: nat)
    requires forall u: int :: u in units ==> u < brk
    ensures forall u: int :: u in units + UnitsOf(brk, n) - units <==> In(brk, n, u)
  {
  }

  lemma BigBlockFits(ring: seq<int>, blocks: Blocks, nunits: nat)
    requires exists i :: 1 <= i < |ring| && ring[i] in blocks && blocks[ring[i]] >= nunits
    ensures !NoneFits(ring, blocks, nunits)
  {
  }

  lemma FromBasePositive(base: int, blocks: Blocks, units: set<int>, a: int)
    requires Tiled(base, blocks, units) && a in blocks
    ensures base < a
  {
  }

  lemma OrderedAt(base: int, ring: seq<int>, blocks: Blocks, k: nat)
    requires Ordered(base, ring, blocks) && 1 <= k < |ring|
    ensures ring[k - 1] < ring[k]
  {
  }

  lemma FromBase(base: int, ring: seq<int>, blocks: Blocks, i: nat)
    requires Ordered(base, ring, blocks) && i < |ring|
    ensures base <= ring[i] && ring[i] in ring && (i >= 1 ==> ring[i] in blocks)
  {
  }

  lemma HeadersAt(base: int, ring: seq<int>, blocks: Blocks, mem: map<int, Header>, k: nat)
    requires Headers(base, ring, blocks, mem) && 1 <= k < |ring| && ring[k] in blocks
    ensures Points(mem, ring, k) && Points(mem, ring, k - 1) && mem[ring[k]].size == blocks[ring[k]]
  {
  }

  lemma PointsDrop(ring: seq<int>, mem: map<int, Header>, k: nat, i: nat)
    requires 1 <= k < |ring| && ring[k] in mem && ring[k - 1] in mem && i < |ring| - 1
    requires Points(mem, ring, if i < k then i else i + 1) && Points(mem, ring, k)
    requires i != k - 1 ==> ring[if i < k then i else i + 1] != ring[k - 1]
    ensures Points(mem[ring[k - 1] := Header(mem[ring[k]].ptr, mem[ring[k - 1]].size)], RingWithout(ring, k), i)
  {
  }

  lemma RingDistinct(base: int, ring: seq<int>, blocks: Blocks, i: nat, j: nat)
    requires Ordered(base, ring, blocks) && i < |ring| && j < |ring| && i != j
    ensures ring[i] != ring[j]
  {
    if i < j { assert ring[i] < ring[j]; } else { assert ring[j] < ring[i]; }
  }

  lemma HeadersDrop(base: int, ring: seq<int>, blocks: Blocks, mem: map<int, Header>, k: nat)
    requires Ordered(base, ring, blocks) && Headers(base, ring, blocks, mem) && 1 <= k < |ring| && ring[k] in mem && ring[k - 1] in mem
    ensures Headers(base, RingWithout(ring, k), blocks, mem[ring[k - 1] := Header(mem[ring[k]].ptr, mem[ring[k - 1]].size)])
  {
    hide Points, Ordered;
    var r, mem' := RingWithout(ring, k), mem[ring[k - 1] := Header(mem[ring[k]].ptr, mem[ring[k - 1]].size)];
    forall i | 0 <= i < |r| ensures Points(mem', r, i) {
      var j := if i < k then i else i + 1;
      if i != k - 1 { RingDistinct(base, ring, blocks, j, k - 1); }
      PointsDrop(ring, mem, k, i);
    }
  }

  lemma FreeAfterDrop(base: int, ring: seq<int>, blocks: Blocks, units: set<int>, k: nat, u: int)
    requires Tiled(base, blocks, units) && Ordered(base, ring, blocks) && 1 <= k < |ring|
    ensures FreeUnit(RingWithout(ring, k), blocks, u) <==> FreeUnit(ring, blocks, u) && !In(ring[k], blocks[ring[k]], u)
  {
    TiledApart(base, blocks, units);
    hide Tiled;
    var r := RingWithout(ring, k);
    RingElements(base, ring, blocks, k);
    if FreeUnit(ring, blocks, u) && !In(ring[k], blocks[ring[k]], u) {
      var i :| 1 <= i < |ring| && ring[i] in blocks && In(ring[i], blocks[ring[i]], u);
      assert r[if i < k then i else i - 1] == ring[i];
    }
    if FreeUnit(r, blocks, u) {
      var i :| 1 <= i < |r| && r[i] in blocks && In(r[i], blocks[r[i]], u);
      var j := if i < k then i else i + 1;
      assert ring[j] == r[i];
      assert j < k ==> ring[j] < ring[k];
      assert j > k ==> ring[k] < ring[j];
    }
  }

  lemma CutKeepsList(base: int, ring: seq<int>, blocks: Blocks, mem: map<int, Header>, k: nat, n: nat)
    requires Ordered(base, ring, blocks) && Headers(base, ring, blocks, mem) && 1 <= k < |ring| && 1 <= n < blocks[ring[k]]
    requires forall a: int, b: int :: a in blocks && b in blocks && a < b ==> a + blocks[a] <= b
    requires forall a: int :: a in blocks ==> base < a && blocks[a] >= 1
    ensures ring[k] in mem && ring[k] + blocks[ring[k]] - n !in ring && Ordered(base, ring, Cut(blocks, ring[k], n))
    ensures var p := ring[k]; var t := p + blocks[p] - n;
            Headers(base, ring, Cut(blocks, p, n), mem[p := Header(mem[p].ptr, blocks[p] - n)][t := Header(if t in mem then mem[t].ptr else 0, n)])
  {
    hide Points;
    var p := ring[k];
    var t := p + blocks[p] - n;
    var blocks' := Cut(blocks, p, n);
    assert Points(mem, ring, k);
    PointsMem(mem, ring, k);
    assert t !in blocks && t > base;
    var mem' := mem[p := Header(mem[p].ptr, blocks[p] - n)][t := Header(if t in mem then mem[t].ptr else 0, n)];
    forall i | 0 <= i < |ring| ensures ring[i] != t {
      assert i >= 1 ==> ring[i] in blocks;
    }
    forall i | 0 <= i < |ring| ensures Points(mem', ring, i) {
      PointsResized(mem, ring, i, p, blocks[p] - n, t, Header(if t in mem then mem[t].ptr else 0, n));
    }
    CutKeepsOrder(base, ring, blocks, k, n);
  }

  lemma PointsMem(mem: map<int, Header>, ring: seq<int>, i: nat)
    requires Points(mem, ring, i)
    ensures ring[i] in mem
  {
  }

  lemma PointsResized(mem: map<int, Header>, ring: seq<int>, i: nat, p: int, n: nat, t: int, h: Header)
    requires Points(mem, ring, i) && p in mem && ring[i] != t
    ensures Points(mem[p := Header(mem[p].ptr, n)][t := h], ring, i)
  {
  }

  lemma CutKeepsOrder(base: int, ring: seq<int>, blocks: Blocks, k: nat, n: nat)
    requires Ordered(base, ring, blocks) && 1 <= k < |ring| && 1 <= n < blocks[ring[k]]
    requires forall a: int, b: int :: a in blocks && b in blocks && a < b ==> a + blocks[a] <= b
    ensures Ordered(base, ring, Cut(blocks, ring[k], n))
  {
    var blocks' := Cut(blocks, ring[k], n);
    forall i | 1 <= i < |ring| - 1 && ring[i] in blocks' ensures ring[i] + blocks'[ring[i]] != ring[i + 1] {
      assert ring[i] + blocks[ring[i]] != ring[i + 1];
      assert ring[i] < ring[i + 1] && ring[i] + blocks[ring[i]] <= ring[i + 1];
    }
  }

  lemma RingInBlocks(base: int, ring: seq<int>, blocks: Blocks)
    requires Ordered(base, ring, blocks)
    ensures forall i :: 1 <= i < |ring| ==> ring[i] in blocks
  {
  }

  /** Another free block keeps its units apart from the one that is cut. */
  lemma CutClear(blocks: Blocks, p: int, q: int, n: nat, u: int)
    requires p in blocks && q in blocks && p != q && 1 <= n < blocks[p]
    requires forall a: int, b: int :: a in blocks && b in blocks && a < b ==> a + blocks[a] <= b
    requires forall a: int :: a in blocks ==> blocks[a] >= 1
    ensures q != p + blocks[p] - n && !(In(q, blocks[q], u) && In(p, blocks[p], u)) && p + blocks[p] - n !in blocks
  {
    if p < q { assert p + blocks[p] <= q; } else { assert q + blocks[q] <= p; }
  }

  lemma FreeAfterCut(base: int, ring: seq<int>, blocks: Blocks, units: set<int>, k: nat, n: nat, u: int)
    requires Tiled(base, blocks, units) && Ordered(base, ring, blocks) && 1 <= k < |ring| && 1 <= n < blocks[ring[k]]
    ensures FreeUnit(ring, Cut(blocks, ring[k], n), u) <==> FreeUnit(ring, blocks, u) && !In(ring[k] + blocks[ring[k]] - n, n, u)
  {
    hide Tiled, Ordered;
    TiledApart(base, blocks, units);
    RingInBlocks(base, ring, blocks);
    var p := ring[k];
    var t, blocks' := p + blocks[p] - n, Cut(blocks, p, n);
    forall i | 1 <= i < |ring| && i != k ensures ring[i] != p && ring[i] != t && !(In(ring[i], blocks[ring[i]], u) && In(p, blocks[p], u)) {
      RingDistinct(base, ring, blocks, i, k);
      CutClear(blocks, p, ring[i], n, u);
    }
    if FreeUnit(ring, blocks, u) && !In(t, n, u) {
      var i :| 1 <= i < |ring| && ring[i] in blocks && In(ring[i], blocks[ring[i]], u);
      assert In(ring[i], blocks'[ring[i]], u);
    }
    if FreeUnit(ring, blocks', u) {
      var i :| 1 <= i < |ring| && ring[i] in blocks' && In(ring[i], blocks'[ring[i]], u);
      assert In(ring[i], blocks[ring[i]], u);
    }
  }

  /** Units malloc asks for: the bytes rounded up, in 32-bit arithmetic, and the header. */
  function Units(nbytes: nat): (n: nat)
    ensures n >= 1
  {
    (nbytes + HEADER - 1) % WORD / HEADER + 1
  }

  /** A block of that many units holds the bytes asked for exactly when the rounding does not
      wrap around. */
  lemma UnitsHold(nbytes: nat)
    requires nbytes < WORD
    ensures (Units(nbytes) - 1) * HEADER >= nbytes <==> nbytes + HEADER - 1 < WORD
  {
  }

  lemma UnitsBound(nbytes: nat)
    ensures Units(nbytes) * HEADER <= WORD
  {
  }

  /** What morecore passes to sbrk: a 32-bit product, taken as an int. */
  function Request(nu: nat): (n: int) {
    var bytes := nu * HEADER % WORD;
    if bytes < KERNBASE then bytes else bytes - WORD
  }

  /** growproc by n bytes: the new size of a process of sz bytes, or -1. */
  function Growproc(sz: nat, n: int, roomy: bool): (r: int)
    ensures r >= -1
  {
    if n > 0 then
      if sz + n >= KERNBASE || !roomy then -1 else sz + n
    else if n < 0 then
      var newsz := (sz + n) % WORD;
      if newsz >= sz then sz else if newsz == 0 then -1 else newsz
    else sz
  }

  /** When sbrk succeeds the process has grown by the units wanted exactly if their bytes fit an int, and
      otherwise it has not grown at all. */
  lemma GrowCovers(sz: nat, nunits: nat, roomy: bool)
    requires sz < KERNBASE && nunits * HEADER <= WORD
    ensures var g := Growproc(sz, Request(Grow(nunits)), roomy);
            g != -1 ==> (g == sz + Grow(nunits) * HEADER <==> Grow(nunits) * HEADER < KERNBASE) && (g <= sz <==> Grow(nunits) * HEADER >= KERNBASE)
  {
  }

  /** Asking for 0xfffffff8 bytes asks sbrk for none, and asking for 0x80000000 asks it to shrink below zero:
      both succeed, and leave the process as it was. */
  lemma HugeRequests(sz: nat, roomy: bool)
    requires sz < KERNBASE - HEADER
    ensures Request(Grow(Units(0xffff_fff8))) == 0 && Growproc(sz, Request(Grow(Units(0xffff_fff8))), roomy) == sz
    ensures Request(Grow(Units(0x8000_0000))) == HEADER - KERNBASE && Growproc(sz, Request(Grow(Units(0x8000_0000))), roomy) == sz
  {
  }

  ghost predicate NoneFits(ring: seq<int>, blocks: Blocks, nunits: nat) {
    forall i :: 1 <= i < |ring| && ring[i] in blocks ==> blocks[ring[i]] < nunits
  }

  function Grow(nunits: nat): (n: nat) {
    if nunits < MINUNITS then MINUNITS else nunits
  }

  lemma NewBlock(base: int, ring: seq<int>, blocks: Blocks, units: set<int>, mem: map<int, Header>, a: int, n: nat)
    requires Tiled(base, blocks, units) && Ordered(base, ring, blocks) && Headers(base, ring, blocks, mem) && base < a && a !in blocks
    ensures a !in ring && Ordered(base, ring, blocks[a := n]) && Headers(base, ring, blocks[a := n], mem[a := Header(0, n)])
  {
    hide Tiled, Points;
    var mem' := mem[a := Header(0, n)];
    forall i | 0 <= i < |ring| ensures ring[i] != a {
      assert i >= 1 ==> ring[i] in blocks;
    }
    forall i | 0 <= i < |ring| ensures Points(mem', ring, i) {
      PointsFrame(mem, ring, i, a, Header(0, n));
    }
    OrderFrame(base, ring, blocks, blocks[a := n]);
  }

  lemma PointsFrame(mem: map<int, Header>, ring: seq<int>, i: nat, a: int, h: Header)
    requires Points(mem, ring, i) && ring[i] != a
    ensures Points(mem[a := h], ring, i)
  {
  }

  lemma NewBlockNotFree(base: int, ring: seq<int>, blocks: Blocks, a: int, n: nat, u: int)
    requires a !in ring && a !in blocks && Ordered(base, ring, blocks)
    ensures FreeUnit(ring, blocks[a := n], u) <==> FreeUnit(ring, blocks, u)
  {
    if FreeUnit(ring, blocks, u) {
      var i :| 1 <= i < |ring| && ring[i] in blocks && In(ring[i], blocks[ring[i]], u);
      assert ring[i] in blocks[a := n] && In(ring[i], blocks[a := n][ring[i]], u);
    }
    if FreeUnit(ring, blocks[a := n], u) {
      var i :| 1 <= i < |ring| && ring[i] in blocks[a := n] && In(ring[i], blocks[a := n][ring[i]], u);
      assert ring[i] in ring;
      assert ring[i] in blocks && In(ring[i], blocks[ring[i]], u);
    }
  }

  lemma HeadersButFacts(base: int, ring: seq<int>, blocks: Blocks, mem: map<int, Header>, k: nat, bp: int)
    requires HeadersBut(base, ring, blocks, mem, k, bp) && Ordered(base, ring, blocks) && bp in blocks
    ensures ring[k] in mem && bp in mem && mem[bp].size == blocks[bp] && (k >= 1 ==> mem[ring[k]].size == blocks[ring[k]])
    ensures k == 0 ==> ring[k] == base && mem[ring[k]].size == 0
  {
  }

  lemma WithMembers(ring: seq<int>, k: nat, b: int, a: int)
    requires k <= |ring|
    ensures a in RingWith(ring, k, b) <==> a in ring || a == b
  {
    var r := RingWith(ring, k, b);
    assert r[k] == b;
    if a in ring {
      var i :| 0 <= i < |ring| && ring[i] == a;
      assert r[if i < k then i else i + 1] == a;
    }
    if a in r && a != b {
      var i :| 0 <= i < |r| && r[i] == a;
      assert ring[if i < k then i else i - 1] == a;
    }
  }

  lemma PendingFacts(base: int, ring: seq<int>, blocks: Blocks, units: set<int>, bp: int, k: nat)
    requires Pending(base, ring, blocks, units, bp, k)
    ensures Tiled(base, blocks, units) && Ordered(base, ring, blocks) && bp in blocks && bp !in ring && k < |ring|
    ensures ring[k] < bp && base < bp && (k + 1 < |ring| ==> ring[k + 1] in blocks)
    ensures k >= 1 ==> ring[k] in blocks
  {
  }

  lemma HeaderFacts(base: int, ring: seq<int>, blocks: Blocks, mem: map<int, Header>, k: nat, bp: int)
    requires Headers(base, ring, blocks, mem) && k < |ring| && bp in blocks
    ensures Points(mem, ring, k) && bp in mem && mem[bp].size == blocks[bp]
    ensures k + 1 < |ring| && ring[k + 1] in blocks ==> Points(mem, ring, k + 1) && mem[ring[k + 1]].size == blocks[ring[k + 1]]
  {
  }

  lemma StaysBefore(ring: seq<int>, k: nat)
    requires k + 1 < |ring|
    ensures |RingWithout(ring, k + 1)| == |ring| - 1 && RingWithout(ring, k + 1)[k] == ring[k]
  {
  }

  ghost predicate LiveSame(ring: seq<int>, blocks: Blocks, ring': seq<int>, blocks': Blocks, bp: int, a: int) {
    && (a in blocks' && a !in ring' <==> a in blocks && a !in ring)
    && (a in blocks' && a !in ring' ==> blocks'[a] >= blocks[a] && (a != bp ==> blocks'[a] == blocks[a]))
  }

  lemma LiveAfterJoinNext(base: int, ring: seq<int>, blocks: Blocks, bp: int, k: nat, ring': seq<int>, blocks': Blocks, a: int)
    requires Ordered(base, ring, blocks) && bp in blocks && bp !in ring && TouchesNext(ring, blocks, bp, k)
    requires ring' == RingWithout(ring, k + 1) && blocks' == Join(blocks, bp, ring[k + 1])
    ensures LiveSame(ring, blocks, ring', blocks', bp, a)
  {
    RingElements(base, ring, blocks, k + 1);
    hide Ordered;
    WithoutMembers(ring, k + 1, a);
  }

  lemma WithoutMembers(ring: seq<int>, k: nat, a: int)
    requires k < |ring| && forall i :: 0 <= i < |RingWithout(ring, k)| ==> RingWithout(ring, k)[i] != ring[k]
    ensures a in RingWithout(ring, k) <==> a in ring && a != ring[k]
  {
    var r := RingWithout(ring, k);
    if a in ring && a != ring[k] {
      var i :| 0 <= i < |ring| && ring[i] == a;
      assert r[if i < k then i else i - 1] == a;
    }
    if a in r {
      var i :| 0 <= i < |r| && r[i] == a;
      assert ring[if i < k then i else i + 1] == a;
    }
  }
}
