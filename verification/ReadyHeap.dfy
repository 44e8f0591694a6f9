/**
The ready queue's ordering, heap.c in its priority mode.  Elements are process
numbers; prio gives their priorities.  heapify goes by LEFT and RIGHT, that is
2i+1 and 2i+2, while increasekey goes by PARENT, that is i/2: two different
trees over the same array.
*/
module ReadyHeap {
  function Left(i: nat): (j: nat) { 2 * i + 1 }
  function Right(i: nat): (j: nat) { 2 * i + 2 }
  function Parent(i: nat): (j: nat) { i / 2 }

  ghost predicate Procs(s: seq<nat>, prio: seq<nat>) {
    forall i :: 0 <= i < |s| ==> s[i] < |prio|
  }

  function P(s: seq<nat>, prio: seq<nat>, i: nat): (p: nat)
    requires i < |s| && s[i] < |prio|
  {
    prio[s[i]]
  }

  function Swap(s: seq<nat>, i: nat, j: nat): (r: seq<nat>)
    requires i < |s| && j < |s|
    ensures |r| == |s|
  {
    s[i := s[j]][j := s[i]]
  }

  lemma SwapKeeps(s: seq<nat>, i: nat, j: nat)
    requires i < |s| && j < |s|
    ensures multiset(Swap(s, i, j)) == multiset(s)
  {
  }

  /** Rearranging the first n elements of a queue keeps which processes it holds. */
  lemma PrefixMultiset(s: seq<nat>, t: seq<nat>, n: nat)
    requires |s| == |t| && n <= |s| && s[n..] == t[n..] && multiset(s) == multiset(t)
    ensures multiset(s[..n]) == multiset(t[..n])
  {
    assert s == s[..n] + s[n..] && t == t[..n] + t[n..];
    assert multiset(s) == multiset(s[..n]) + multiset(s[n..]);
    assert multiset(t) == multiset(t[..n]) + multiset(t[n..]);
    assert multiset(s[..n]) == multiset(s) - multiset(s[n..]);
    assert multiset(t[..n]) == multiset(t) - multiset(t[n..]);
  }

  // ---- increasekey ----

  /** increasekey as a function of the array's contents. */
  function SiftUp(s: seq<nat>, prio: seq<nat>, i: nat): (r: seq<nat>)
    requires Procs(s, prio) && i < |s|
    ensures |r| == |s| && Procs(r, prio)
    decreases i
  {
    if i > 0 && P(s, prio, Parent(i)) < P(s, prio, i) then SiftUp(Swap(s, i, Parent(i)), prio, Parent(i)) else s
  }

  lemma {:induction false} SiftUpPermutes(s: seq<nat>, prio: seq<nat>, i: nat)
    requires Procs(s, prio) && i < |s|
    ensures multiset(SiftUp(s, prio, i)) == multiset(s) && SiftUp(s, prio, i)[i + 1..] == s[i + 1..]
    decreases i
  {
    if i > 0 && P(s, prio, Parent(i)) < P(s, prio, i) {
      var t := Swap(s, i, Parent(i));
      SwapKeeps(s, i, Parent(i));
      SiftUpPermutes(t, prio, Parent(i));
      assert SiftUp(t, prio, Parent(i))[i + 1..] == t[i + 1..] by {
        assert forall k :: Parent(i) + 1 <= k < |s| ==> SiftUp(t, prio, Parent(i))[k] == SiftUp(t, prio, Parent(i))[Parent(i) + 1..][k - Parent(i) - 1];
        assert forall k :: Parent(i) + 1 <= k < |s| ==> t[k] == t[Parent(i) + 1..][k - Parent(i) - 1];
      }
    }
  }

  /** Among the first n, every element is below its PARENT, except perhaps element x. */
  ghost predicate UpHeapBut(s: seq<nat>, prio: seq<nat>, n: nat, x: nat)
    requires Procs(s, prio) && n <= |s|
  {
    && (forall j :: 1 <= j < n && j != x ==> P(s, prio, Parent(j)) >= P(s, prio, j))
    && (forall j :: 1 <= j < n && Parent(j) == x && x >= 1 ==> P(s, prio, Parent(x)) >= P(s, prio, j))
  }

  ghost predicate UpHeap(s: seq<nat>, prio: seq<nat>, n: nat)
    requires Procs(s, prio) && n <= |s|
  {
    forall j :: 1 <= j < n ==> P(s, prio, Parent(j)) >= P(s, prio, j)
  }

  lemma {:induction false} SiftUpHeaps(s: seq<nat>, prio: seq<nat>, n: nat, i: nat)
    requires Procs(s, prio) && i < n <= |s| && UpHeapBut(s, prio, n, i)
    ensures UpHeap(SiftUp(s, prio, i), prio, n)
    decreases i
  {
    if i > 0 && P(s, prio, Parent(i)) < P(s, prio, i) {
      var t := Swap(s, i, Parent(i));
      SwappedUp(s, prio, n, i);
      SiftUpHeaps(t, prio, n, Parent(i));
    }
  }

  lemma SwappedUp(s: seq<nat>, prio: seq<nat>, n: nat, i: nat)
    requires Procs(s, prio) && 0 < i < n <= |s| && UpHeapBut(s, prio, n, i) && P(s, prio, Parent(i)) < P(s, prio, i)
    ensures UpHeapBut(Swap(s, i, Parent(i)), prio, n, Parent(i))
  {
    var t, p := Swap(s, i, Parent(i)), Parent(i);
    forall j | 1 <= j < n && j != p ensures P(t, prio, Parent(j)) >= P(t, prio, j) {
      if j != i {
        assert P(s, prio, Parent(j)) >= P(s, prio, j);
      }
    }
    if p >= 1 {
      assert P(s, prio, Parent(p)) >= P(s, prio, p);
    }
    forall j | 1 <= j < n && Parent(j) == p && p >= 1 ensures P(t, prio, Parent(p)) >= P(t, prio, j) {
      if j != i && j != p {
        assert P(s, prio, p) >= P(s, prio, j);
      }
    }
  }

  /** Inserting at the end keeps the PARENT order. */
  lemma InsertKeepsUpHeap(s: seq<nat>, prio: seq<nat>, n: nat)
    requires Procs(s, prio) && n < |s| && UpHeap(s, prio, n)
    ensures UpHeap(SiftUp(s, prio, n), prio, n + 1)
  {
    assert UpHeapBut(s, prio, n + 1, n);
    SiftUpHeaps(s, prio, n + 1, n);
  }

  /** In the PARENT order the first element has the highest priority. */
  lemma {:induction false} UpHeapRoot(s: seq<nat>, prio: seq<nat>, n: nat, j: nat)
    requires Procs(s, prio) && j < n <= |s| && UpHeap(s, prio, n)
    ensures P(s, prio, 0) >= P(s, prio, j)
    decreases j
  {
    if j > 0 {
      UpHeapRoot(s, prio, n, Parent(j));
    }
  }

  // ---- heapify ----

  /** The largest of i and its children below n, by heapify's two comparisons. */
  function Largest(s: seq<nat>, prio: seq<nat>, n: nat, i: nat): (m: nat)
    requires Procs(s, prio) && i < |s| && n <= |s|
    ensures m == i || (i < m < n && (m == Left(i) || m == Right(i)))
    ensures P(s, prio, m) >= P(s, prio, i)
    ensures forall c :: c < n && (c == Left(i) || c == Right(i)) ==> P(s, prio, m) >= P(s, prio, c)
  {
    var m := if Left(i) < n && P(s, prio, Left(i)) > P(s, prio, i) then Left(i) else i;
    if Right(i) < n && P(s, prio, Right(i)) > P(s, prio, m) then Right(i) else m
  }

  /** heapify as a function of the array's contents. */
  function SiftDown(s: seq<nat>, prio: seq<nat>, n: nat, i: nat): (r: seq<nat>)
    requires Procs(s, prio) && i < |s| && n <= |s|
    ensures |r| == |s| && Procs(r, prio)
    decreases |s| - i
  {
    var m := Largest(s, prio, n, i);
    if m == i then s else SiftDown(Swap(s, i, m), prio, n, m)
  }

  lemma {:induction false} SiftDownPermutes(s: seq<nat>, prio: seq<nat>, n: nat, i: nat)
    requires Procs(s, prio) && i < |s| && n <= |s|
    ensures multiset(SiftDown(s, prio, n, i)) == multiset(s) && SiftDown(s, prio, n, i)[n..] == s[n..]
    ensures forall k :: 0 <= k < i ==> SiftDown(s, prio, n, i)[k] == s[k]
    decreases |s| - i
  {
    var m := Largest(s, prio, n, i);
    if m != i {
      SwapKeeps(s, i, m);
      SiftDownPermutes(Swap(s, i, m), prio, n, m);
    }
  }

  /** After heapify the element at i is the largest of the three it looked at. */
  lemma SiftDownTop(s: seq<nat>, prio: seq<nat>, n: nat, i: nat)
    requires Procs(s, prio) && i < |s| && n <= |s|
    ensures SiftDown(s, prio, n, i)[i] == s[Largest(s, prio, n, i)]
  {
    var m := Largest(s, prio, n, i);
    if m != i {
      SiftDownPermutes(Swap(s, i, m), prio, n, m);
    }
  }

  ghost predicate Above(s: seq<nat>, prio: seq<nat>, n: nat, i: nat)
    requires Procs(s, prio) && n <= |s| && i < n
  {
    forall c :: c < n && (c == Left(i) || c == Right(i)) ==> P(s, prio, i) >= P(s, prio, c)
  }

  /** Every element is above its children, except perhaps element x; x's parent is above x's children. */
  ghost predicate DownHeapBut(s: seq<nat>, prio: seq<nat>, n: nat, x: nat)
    requires Procs(s, prio) && n <= |s|
  {
    && (forall j :: 0 <= j < n && j != x ==> Above(s, prio, n, j))
    && (forall j, c :: 0 <= j < n && (x == Left(j) || x == Right(j)) && c < n && (c == Left(x) || c == Right(x)) ==> P(s, prio, j) >= P(s, prio, c))
  }

  ghost predicate DownHeap(s: seq<nat>, prio: seq<nat>, n: nat)
    requires Procs(s, prio) && n <= |s|
  {
    forall j :: 0 <= j < n ==> Above(s, prio, n, j)
  }

  lemma SwappedDown(s: seq<nat>, prio: seq<nat>, n: nat, i: nat)
    requires Procs(s, prio) && i < n <= |s| && DownHeapBut(s, prio, n, i) && Largest(s, prio, n, i) != i
    ensures DownHeapBut(Swap(s, i, Largest(s, prio, n, i)), prio, n, Largest(s, prio, n, i))
  {
    var m := Largest(s, prio, n, i);
    var t := Swap(s, i, m);
    forall j | 0 <= j < n && j != m ensures Above(t, prio, n, j) {
      forall c | c < n && (c == Left(j) || c == Right(j)) ensures P(t, prio, j) >= P(t, prio, c) {
        if j != i {
          assert Above(s, prio, n, j) && c != m;
          assert P(s, prio, j) >= P(s, prio, c);
          assert c == i ==> P(s, prio, j) >= P(s, prio, m);
        } else {
          assert P(s, prio, m) >= P(s, prio, c) && P(s, prio, m) >= P(s, prio, i);
        }
      }
    }
    forall j, c | 0 <= j < n && (m == Left(j) || m == Right(j)) && c < n && (c == Left(m) || c == Right(m)) ensures P(t, prio, j) >= P(t, prio, c) {
      assert j == i && Above(s, prio, n, m);
      assert P(s, prio, m) >= P(s, prio, c);
    }
  }

  /** heapify puts a heap together from two heaps under i, in the LEFT/RIGHT order. */
  lemma {:induction false} SiftDownHeaps(s: seq<nat>, prio: seq<nat>, n: nat, i: nat)
    requires Procs(s, prio) && i < n <= |s| && DownHeapBut(s, prio, n, i)
    ensures DownHeap(SiftDown(s, prio, n, i), prio, n)
    decreases n - i
  {
    var m := Largest(s, prio, n, i);
    if m != i {
      SwappedDown(s, prio, n, i);
      SiftDownHeaps(Swap(s, i, m), prio, n, m);
    } else {
      assert Above(s, prio, n, i);
    }
  }

  // ---- in place ----

  /** heapify on the array itself. */
  method Heapify(a: array<nat>, prio: seq<nat>, n: nat, i: nat)
    requires Procs(a[..], prio) && i < a.Length && n <= a.Length
    modifies a
    ensures a[..] == SiftDown(old(a[..]), prio, n, i)
    decreases a.Length - i
  {
    var max := i;
    if Left(i) < n && prio[a[Left(i)]] > prio[a[i]] {
      max := Left(i);
    }
    if Right(i) < n && prio[a[Right(i)]] > prio[a[max]] {
      max := Right(i);
    }
    assert max == Largest(a[..], prio, n, i);
    if max != i {
      a[i], a[max] := a[max], a[i];
      assert a[..] == Swap(old(a[..]), i, max);
      Heapify(a, prio, n, max);
    }
  }

  /** increasekey on the array itself. */
  method IncreaseKey(a: array<nat>, prio: seq<nat>, at: nat)
    requires Procs(a[..], prio) && at < a.Length
    modifies a
    ensures a[..] == SiftUp(old(a[..]), prio, at)
  {
    var i := at;
    while i > 0 && prio[a[Parent(i)]] < prio[a[i]]
      invariant 0 <= i < a.Length && Procs(a[..], prio)
      invariant SiftUp(a[..], prio, i) == SiftUp(old(a[..]), prio, at)
    {
      ghost var s := a[..];
      a[i], a[Parent(i)] := a[Parent(i)], a[i];
      assert a[..] == Swap(s, i, Parent(i));
      i := Parent(i);
    }
  }

  // ---- which process comes first ----

  /** The first of n has the highest priority. */
  ghost predicate RootMax(s: seq<nat>, prio: seq<nat>, n: nat)
    requires Procs(s, prio) && n <= |s|
  {
    forall j :: 0 <= j < n ==> P(s, prio, 0) >= P(s, prio, j)
  }

  /** Place c holds the highest priority of places 1 to n. */
  ghost predicate MaxOfRest(s: seq<nat>, prio: seq<nat>, n: nat, c: nat)
    requires Procs(s, prio) && n < |s|
  {
    1 <= c <= n && forall j :: 1 <= j <= n ==> P(s, prio, c) >= P(s, prio, j)
  }

  /** The scheduler's step on the array: the last element to the front, then heapify. */
  function Removed(s: seq<nat>, prio: seq<nat>, n: nat): (r: seq<nat>)
    requires Procs(s, prio) && n < |s|
    ensures |r| == |s| && Procs(r, prio)
  {
    SiftDown(s[0 := s[n]], prio, n, 0)
  }

  /** After a removal the first element has the highest priority of the rest exactly when a
      highest one was at place 1, 2 or last before it. */
  lemma RemovedRootMax(s: seq<nat>, prio: seq<nat>, n: nat)
    requires Procs(s, prio) && 1 <= n < |s|
    ensures RootMax(Removed(s, prio, n), prio, n) <==> MaxOfRest(s, prio, n, n) || MaxOfRest(s, prio, n, 1) || (2 <= n && MaxOfRest(s, prio, n, 2))
  {
    var s0 := s[0 := s[n]];
    var r, m := Removed(s, prio, n), Largest(s0, prio, n, 0);
    SiftDownTop(s0, prio, n, 0);
    SiftDownPermutes(s0, prio, n, 0);
    PrefixMultiset(r, s0, n);
    assert P(r, prio, 0) == P(s0, prio, m);
    if RootMax(r, prio, n) {
      forall j | 1 <= j <= n ensures P(s0, prio, m) >= P(s, prio, j) {
        var k := MovedTo(s0, r, n, if j == n then 0 else j);
        assert P(r, prio, 0) >= P(r, prio, k);
      }
      assert MaxOfRest(s, prio, n, if m == 0 then n else m);
    } else {
      var j :| 0 <= j < n && P(r, prio, 0) < P(r, prio, j);
      var k := MovedTo(r, s0, n, j);
      assert k != 0;
      assert P(s0, prio, m) < P(s, prio, k);
    }
  }

  /** Where an element of a rearranged prefix is now. */
  lemma MovedTo(s: seq<nat>, t: seq<nat>, n: nat, i: nat) returns (k: nat)
    requires |s| == |t| && i < n <= |s| && multiset(s[..n]) == multiset(t[..n])
    ensures k < n && t[k] == s[i]
  {
    assert s[..n][i] in multiset(s[..n]);
    assert s[i] in t[..n];
    k :| 0 <= k < n && t[k] == s[i];
  }

  // ---- a mixed run ----

  function Enqueue(q: seq<nat>, prio: seq<nat>, p: nat): (r: seq<nat>)
    requires Procs(q, prio) && p < |prio|
    ensures Procs(r, prio)
  {
    SiftUp(q + [p], prio, |q|)
  }

  function Dequeue(q: seq<nat>, prio: seq<nat>): (r: seq<nat>)
    requires Procs(q, prio) && |q| > 0
    ensures Procs(r, prio)
  {
    Removed(q, prio, |q| - 1)[..|q| - 1]
  }

  lemma FirstRemoval(prio: seq<nat>)
    requires prio == [4, 4, 4, 1, 2, 4, 1, 3]
    ensures Dequeue([0, 1, 2, 3, 4], prio) == [1, 4, 2, 3]
  {
    var s := [0, 1, 2, 3, 4][0 := 4];
    assert s == [4, 1, 2, 3, 4] && Largest(s, prio, 4, 0) == 1;
    assert Swap(s, 0, 1) == [1, 4, 2, 3, 4] && Largest([1, 4, 2, 3, 4], prio, 4, 1) == 1;
    assert SiftDown([1, 4, 2, 3, 4], prio, 4, 1) == [1, 4, 2, 3, 4];
    assert SiftDown(s, prio, 4, 0) == SiftDown(Swap(s, 0, 1), prio, 4, 1);
    assert Removed([0, 1, 2, 3, 4], prio, 4) == [1, 4, 2, 3, 4];
    assert [1, 4, 2, 3, 4][..4] == [1, 4, 2, 3];
  }

  lemma LateArrival(prio: seq<nat>)
    requires prio == [4, 4, 4, 1, 2, 4, 1, 3]
    ensures Enqueue([1, 4, 2, 3, 5, 6], prio, 7) == [1, 7, 2, 4, 5, 6, 3]
  {
    var s := [1, 4, 2, 3, 5, 6] + [7];
    assert Swap(s, 6, 3) == [1, 4, 2, 7, 5, 6, 3];
    assert Swap([1, 4, 2, 7, 5, 6, 3], 3, 1) == [1, 7, 2, 4, 5, 6, 3];
    assert SiftUp([1, 7, 2, 4, 5, 6, 3], prio, 1) == [1, 7, 2, 4, 5, 6, 3];
  }

  lemma SecondRemoval(prio: seq<nat>)
    requires prio == [4, 4, 4, 1, 2, 4, 1, 3]
    ensures Dequeue([1, 7, 2, 4, 5, 6, 3], prio) == [2, 7, 3, 4, 5, 6]
  {
    var s := [1, 7, 2, 4, 5, 6, 3][0 := 3];
    assert s == [3, 7, 2, 4, 5, 6, 3] && Largest(s, prio, 6, 0) == 2;
    assert Swap(s, 0, 2) == [2, 7, 3, 4, 5, 6, 3] && Largest([2, 7, 3, 4, 5, 6, 3], prio, 6, 2) == 2;
    assert SiftDown([2, 7, 3, 4, 5, 6, 3], prio, 6, 2) == [2, 7, 3, 4, 5, 6, 3];
    assert SiftDown(s, prio, 6, 0) == SiftDown(Swap(s, 0, 2), prio, 6, 2);
    assert Removed([1, 7, 2, 4, 5, 6, 3], prio, 6) == [2, 7, 3, 4, 5, 6, 3];
    assert [2, 7, 3, 4, 5, 6, 3][..6] == [2, 7, 3, 4, 5, 6];
  }

  lemma ThirdRemoval(prio: seq<nat>)
    requires prio == [4, 4, 4, 1, 2, 4, 1, 3]
    ensures Dequeue([2, 7, 3, 4, 5, 6], prio) == [7, 5, 3, 4, 6]
  {
    var s := [2, 7, 3, 4, 5, 6][0 := 6];
    assert s == [6, 7, 3, 4, 5, 6] && Largest(s, prio, 5, 0) == 1;
    assert Swap(s, 0, 1) == [7, 6, 3, 4, 5, 6] && Largest([7, 6, 3, 4, 5, 6], prio, 5, 1) == 4;
    assert Swap([7, 6, 3, 4, 5, 6], 1, 4) == [7, 5, 3, 4, 6, 6];
    assert SiftDown([7, 5, 3, 4, 6, 6], prio, 5, 4) == [7, 5, 3, 4, 6, 6];
    assert SiftDown([7, 6, 3, 4, 5, 6], prio, 5, 1) == [7, 5, 3, 4, 6, 6];
    assert Removed([2, 7, 3, 4, 5, 6], prio, 5) == [7, 5, 3, 4, 6, 6];
    assert [7, 5, 3, 4, 6, 6][..5] == [7, 5, 3, 4, 6];
  }

  lemma EarlyArrivals(prio: seq<nat>)
    requires prio == [4, 4, 4, 1, 2, 4, 1, 3]
    ensures Enqueue(Enqueue(Enqueue(Enqueue(Enqueue([], prio, 0), prio, 1), prio, 2), prio, 3), prio, 4) == [0, 1, 2, 3, 4]
    ensures Enqueue(Enqueue([1, 4, 2, 3], prio, 5), prio, 6) == [1, 4, 2, 3, 5, 6]
  {
    assert Enqueue([], prio, 0) == [0];
    assert Enqueue([0], prio, 1) == [0, 1];
    assert Enqueue([0, 1], prio, 2) == [0, 1, 2];
    assert Enqueue([0, 1, 2], prio, 3) == [0, 1, 2, 3];
    assert Enqueue([0, 1, 2, 3], prio, 4) == [0, 1, 2, 3, 4];
    assert Enqueue([1, 4, 2, 3], prio, 5) == [1, 4, 2, 3, 5];
  }

  /** Insertions and removals mixed do not keep the highest priority first: five processes of
      priorities 4, 4, 4, 1, 2 arrive, one is taken, 4, 1, 3 arrive, two are taken; the next one
      up has priority 3 although one of priority 4 is ready. */
  lemma MixedRunMisorders(prio: seq<nat>)
    requires prio == [4, 4, 4, 1, 2, 4, 1, 3]
    ensures var five := Enqueue(Enqueue(Enqueue(Enqueue(Enqueue([], prio, 0), prio, 1), prio, 2), prio, 3), prio, 4);
            |five| > 0 &&
            var eight := Enqueue(Enqueue(Enqueue(Dequeue(five, prio), prio, 5), prio, 6), prio, 7);
            |eight| > 0 && |Dequeue(eight, prio)| > 0 &&
            var q := Dequeue(Dequeue(eight, prio), prio);
            |q| == 5 && prio[q[0]] == 3 && prio[q[1]] == 4
  {
    hide Enqueue, Dequeue;
    EarlyArrivals(prio);
    FirstRemoval(prio);
    LateArrival(prio);
    SecondRemoval(prio);
    ThirdRemoval(prio);
  }
}
