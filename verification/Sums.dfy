/** Sums over the values of a finite map, in no particular order. */
module Sums {
  ghost function Pick<K(!new)>(s: set<K>): (k: K)
    requires s != {}
    ensures k in s
  {
    var k: K :| k in s; k
  }

  ghost function Sum<K(!new)>(m: map<K, int>): int
    decreases m.Keys
  {
    if m.Keys == {} then 0
    else
      var k := Pick(m.Keys);
      assert (m - {k}).Keys == m.Keys - {k};
      m[k] + Sum(m - {k})
  }

  /** The order of summation does not matter: any key may be taken first. */
  lemma {:induction false} SumRemove<K(!new)>(m: map<K, int>, k: K)
    requires k in m
    ensures Sum(m) == m[k] + Sum(m - {k})
    decreases m.Keys
  {
    var j := Pick(m.Keys);
    if j != k {
      assert (m - {j}).Keys == m.Keys - {j} && (m - {k}).Keys == m.Keys - {k};
      SumRemove(m - {j}, k);
      SumRemove(m - {k}, j);
      assert m - {j} - {k} == m - {k} - {j};
    }
  }

  lemma SumUpdate<K(!new)>(m: map<K, int>, k: K, v: int)
    ensures Sum(m[k := v]) == Sum(m) - (if k in m then m[k] else 0) + v
  {
    SumRemove(m[k := v], k);
    assert m[k := v] - {k} == m - {k};
    if k in m {
      SumRemove(m, k);
    } else {
      assert m - {k} == m;
    }
  }

  function Restrict<K, V>(m: map<K, V>, s: set<K>): map<K, V> {
    map k | k in m && k in s :: m[k]
  }

  lemma {:induction false} SumSplit<K(!new)>(m: map<K, int>, s: set<K>)
    ensures Sum(m) == Sum(m - s) + Sum(Restrict(m, s))
    decreases m.Keys
  {
    if m.Keys == {} {
      assert (m - s).Keys == {} && Restrict(m, s).Keys == {};
    } else {
      var k := Pick(m.Keys);
      assert (m - {k}).Keys == m.Keys - {k};
      SumSplit(m - {k}, s);
      if k in s {
        SumRemove(Restrict(m, s), k);
        assert Restrict(m - {k}, s) == Restrict(m, s) - {k};
        assert m - {k} - s == m - s;
      } else {
        SumRemove(m - s, k);
        assert m - {k} - s == m - s - {k};
        assert Restrict(m - {k}, s) == Restrict(m, s);
      }
    }
  }

  /** Summing two maps over the same keys is summing their sum. */
  lemma {:induction false} SumPlus<K(!new)>(a: map<K, int>, b: map<K, int>, c: map<K, int>)
    requires a.Keys == b.Keys == c.Keys && forall k :: k in c ==> c[k] == a[k] + b[k]
    ensures Sum(c) == Sum(a) + Sum(b)
    decreases c.Keys
  {
    if c.Keys != {} {
      var k := Pick(c.Keys);
      assert (a - {k}).Keys == (b - {k}).Keys == (c - {k}).Keys;
      SumRemove(a, k);
      SumRemove(b, k);
      SumRemove(c, k);
      SumPlus(a - {k}, b - {k}, c - {k});
    }
  }

  /** A sum of numbers that are not negative is zero exactly if they all are. */
  lemma {:induction false} SumZeroIff<K(!new)>(m: map<K, int>)
    requires forall k :: k in m ==> m[k] >= 0
    ensures Sum(m) >= 0 && (Sum(m) == 0 <==> forall k :: k in m ==> m[k] == 0)
    decreases m.Keys
  {
    if m.Keys != {} {
      var k := Pick(m.Keys);
      assert (m - {k}).Keys == m.Keys - {k};
      SumZeroIff(m - {k});
      assert forall j :: j in m && j != k ==> j in m - {k};
    }
  }
}
