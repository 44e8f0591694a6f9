/** Sizes of finite sets of numbers. */
module Sets {
  lemma SubsetSize(a: set<nat>, b: set<nat>)
    requires a <= b
    ensures |a| <= |b|
  {
    assert b == a + (b - a);
  }

  lemma AddSize(a: set<nat>, x: nat)
    ensures |a + {x}| == if x in a then |a| else |a| + 1
    ensures |a + {x}| >= 1
  {
    if x in a {
      assert a + {x} == a;
      assert |a - {x}| == |a| - 1;
    }
  }

  lemma RemoveSize(a: set<nat>, x: nat)
    requires x in a
    ensures |a - {x}| == |a| - 1
  {
  }

  lemma UpdateSize<T>(m: map<nat, T>, k: nat, v: T)
    ensures |m[k := v]| == if k in m then |m| else |m| + 1
  {
    assert m[k := v].Keys == m.Keys + {k};
    assert |m[k := v]| == |m[k := v].Keys| && |m| == |m.Keys|;
    AddSize(m.Keys, k);
  }
}
