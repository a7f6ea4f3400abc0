/** Sizes: of finite sets, of the entries of a map by class, and of a weight added up over them. */
module Tally {

  /** The keys whose value satisfies `p`. */
  ghost function Matching<K, V>(m: map<K, V>, p: V -> bool): set<K> {
    set k | k in m && p(m[k])
  }

  /** How many entries of `m` satisfy `p`. */
  ghost function Count<K, V>(m: map<K, V>, p: V -> bool): nat {
    |Matching(m, p)|
  }

  lemma CountUpdate<K, V>(m: map<K, V>, p: V -> bool, k: K, v: V)
    ensures Count(m[k := v], p)
         == Count(m, p) - (if k in m && p(m[k]) then 1 else 0) + (if p(v) then 1 else 0)
  {
    assert Matching(m[k := v], p) - {k} == Matching(m, p) - {k};
    CountApart(m, p, k);
    CountApart(m[k := v], p, k);
  }

  lemma CountApart<K, V>(m: map<K, V>, p: V -> bool, k: K)
    ensures Count(m, p) == |Matching(m, p) - {k}| + (if k in m && p(m[k]) then 1 else 0)
  {
    if k in m && p(m[k]) {
      assert Matching(m, p) == (Matching(m, p) - {k}) + {k};
    } else {
      assert Matching(m, p) == Matching(m, p) - {k};
    }
  }

  lemma CountRemove<K, V>(m: map<K, V>, p: V -> bool, k: K)
    ensures Count(m - {k}, p) == Count(m, p) - (if k in m && p(m[k]) then 1 else 0)
  {
    assert Matching(m - {k}, p) == Matching(m, p) - {k};
  }

  /** A positive count has a witness, and a witness makes the count positive. */
  lemma CountWitness<K, V>(m: map<K, V>, p: V -> bool)
    ensures Count(m, p) > 0 <==> exists k :: k in m && p(m[k])
  {
    if Count(m, p) > 0 {
      var k :| k in Matching(m, p);
      assert k in m && p(m[k]);
    }
    if k :| k in m && p(m[k]) {
      assert k in Matching(m, p);
    }
  }

  // ----- Sets and sequences -----

  ghost predicate Distinct<T>(s: seq<T>) {
    forall i, j :: 0 <= i < j < |s| ==> s[i] != s[j]
  }

  lemma DistinctSnoc<T>(s: seq<T>, x: T)
    ensures Distinct(s + [x]) <==> Distinct(s) && x !in s
  {
    var t := s + [x];
    if Distinct(t) {
      forall i | 0 <= i < |s|
        ensures s[i] != x
      {
        assert t[i] != t[|s|];
      }
      assert forall i, j :: 0 <= i < j < |s| ==> t[i] == s[i] && t[j] == s[j];
    }
  }

  function Elements<T(==)>(s: seq<T>): set<T> { set x | x in s }

  lemma ElementsSnoc<T>(s: seq<T>, x: T)
    ensures Elements(s + [x]) == Elements(s) + {x}
  {
  }

  lemma ElementsNone<T>()
    ensures Elements<T>([]) == {}
  {
  }

  /** The numbers 0..n-1. */
  ghost function Below(n: nat): (r: set<nat>)
    ensures |r| == n && forall k: nat :: k in r <==> k < n
  {
    if n == 0 then {} else Below(n - 1) + {n - 1}
  }

  lemma SubsetSize<T>(a: set<T>, b: set<T>)
    requires a <= b
    ensures |a| <= |b| && (|a| == |b| ==> a == b)
  {
    assert b == a + (b - a);
    assert |b - a| == 0 ==> b - a == {};
  }

  lemma PickFrom<T>(s: set<T>) returns (x: T)
    requires s != {}
    ensures x in s
  {
    x :| x in s;
  }

  // ----- Sums -----

  /** The sum of `w` over all values of `m`. */
  ghost function Sum<K, V>(m: map<K, V>, w: V -> nat): nat
    decreases |m|
  {
    if m == map[] then 0
    else
      var k :| k in m;
      w(m[k]) + Sum(m - {k}, w)
  }

  /** The sum does not depend on which entry is taken out first. */
  lemma SumSplit<K, V>(m: map<K, V>, w: V -> nat, k: K)
    requires k in m
    ensures Sum(m, w) == w(m[k]) + Sum(m - {k}, w)
    decreases |m|
  {
    var j :| j in m && Sum(m, w) == w(m[j]) + Sum(m - {j}, w);
    if j != k {
      SumSplit(m - {j}, w, k);
      SumSplit(m - {k}, w, j);
      assert m - {j} - {k} == m - {k} - {j};
    }
  }

  lemma SumUpdate<K, V>(m: map<K, V>, w: V -> nat, k: K, v: V)
    ensures Sum(m[k := v], w) == Sum(m, w) - (if k in m then w(m[k]) else 0) + w(v)
  {
    SumSplit(m[k := v], w, k);
    assert m[k := v] - {k} == m - {k};
    if k in m {
      SumSplit(m, w, k);
    } else {
      assert m - {k} == m;
    }
  }

  lemma SizeUpdate<K, V>(m: map<K, V>, k: K, v: V)
    requires k !in m
    ensures |m[k := v]| == |m| + 1
  {
    assert m[k := v].Keys == m.Keys + {k};
    assert |m[k := v].Keys| == |m.Keys| + 1;
  }

  lemma SizeRemove<K, V>(m: map<K, V>, k: K)
    requires k in m
    ensures |m - {k}| == |m| - 1
  {
    assert (m - {k}).Keys == m.Keys - {k};
    assert |(m - {k}).Keys| == |m.Keys| - 1;
  }
}
