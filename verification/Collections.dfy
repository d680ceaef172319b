/** Small facts about sizes of sets and maps and about sequences without repetition. */
module Collections {
  ghost predicate Distinct<T>(xs: seq<T>) {
    forall i, j | 0 <= i < |xs| && 0 <= j < |xs| && xs[i] == xs[j] :: i == j
  }

  lemma DistinctAppend<T>(xs: seq<T>, x: T)
    requires Distinct(xs) && x !in xs
    ensures Distinct(xs + [x])
  {
  }

  ghost function Elements<T>(xs: seq<T>): set<T> {
    set x | x in xs
  }

  /** A sequence enumerating a set, in whatever order. */
  ghost predicate Enumerates<T>(xs: seq<T>, s: set<T>) {
    Distinct(xs) && Elements(xs) == s
  }

  lemma EnumerateMore<T>(xs: seq<T>, s: set<T>, x: T)
    requires Enumerates(xs, s) && x !in s
    ensures Enumerates(xs + [x], s + {x})
  {
    assert x !in xs by { assert x !in Elements(xs); }
    DistinctAppend(xs, x);
    assert Elements(xs + [x]) == Elements(xs) + {x};
  }

  lemma EnumerateFirst<T>(x: T, xs: seq<T>, s: set<T>)
    requires Enumerates(xs, s) && x !in s
    ensures Enumerates([x] + xs, {x} + s)
  {
    assert x !in xs by { assert x !in Elements(xs); }
    assert Elements([x] + xs) == {x} + Elements(xs);
  }

  lemma {:induction false} EnumerateSize<T>(xs: seq<T>, s: set<T>)
    requires Enumerates(xs, s)
    ensures |xs| == |s|
  {
    if xs == [] {
      assert s == {};
    } else {
      var rest, x := xs[1..], xs[0];
      assert xs == [x] + rest;
      assert x !in rest;
      EnumerateSize(rest, Elements(rest));
      assert s == Elements(rest) + {x};
    }
  }

  lemma {:induction false} EnumerationExists<T>(s: set<T>) returns (xs: seq<T>)
    ensures Enumerates(xs, s)
    decreases s
  {
    if x :| x in s {
      xs := EnumerationExists(s - {x});
      EnumerateMore(xs, s - {x}, x);
      xs := xs + [x];
      assert s - {x} + {x} == s;
    } else {
      xs := [];
    }
  }

  lemma SubsetSize<T>(a: set<T>, b: set<T>)
    requires a <= b
    ensures |a| <= |b|
    ensures a != b ==> |a| < |b|
  {
    assert b == a + (b - a);
  }

  lemma SwapSize<T>(a: set<T>, x: T, y: T)
    requires x in a && y !in a
    ensures |a - {x} + {y}| == |a|
  {
  }

  lemma GrowSize<T>(a: set<T>, b: set<T>, x: T)
    requires a <= b && x !in b
    ensures |a + {x}| == |a| + 1 && |b + {x}| == |b| + 1 && a + {x} <= b + {x}
  {
  }

  lemma RemoveCount<K, V>(m: map<K, V>, k: K)
    requires k in m
    ensures |m - {k}| == |m| - 1
  {
    assert (m - {k}).Keys == m.Keys - {k};
    assert |(m - {k}).Keys| == |m - {k}| && |m.Keys| == |m|;
  }

  lemma InsertCount<K, V>(m: map<K, V>, k: K, v: V)
    ensures |m[k := v]| == |m| + if k in m then 0 else 1
  {
    assert m[k := v].Keys == m.Keys + {k};
    assert |m[k := v].Keys| == |m[k := v]| && |m.Keys| == |m|;
  }
}
