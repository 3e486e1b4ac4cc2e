/** Finite permutations and sums over them, the arithmetic that optimality of an assignment rests on. */
module Permutations {

  ghost predicate Within(s: seq<int>, n: int) {
    forall i :: 0 <= i < |s| ==> 0 <= s[i] < n
  }

  ghost predicate Distinct<T>(s: seq<T>) {
    forall i, j :: 0 <= i < j < |s| ==> s[i] != s[j]
  }

  lemma DistinctConcat<T>(a: seq<T>, b: seq<T>)
    requires Distinct(a) && Distinct(b)
    requires forall i :: 0 <= i < |a| ==> a[i] !in b
    ensures Distinct(a + b)
  {
  }

  ghost predicate IsPermutation(p: seq<int>, n: nat) {
    |p| == n && Within(p, n) && Distinct(p)
  }

  ghost function Elements<T(!new)>(s: seq<T>): (r: set<T>)
    ensures forall e :: e in r <==> e in s
  {
    if |s| == 0 then {} else Elements(s[..|s| - 1]) + {s[|s| - 1]}
  }

  lemma {:induction false} DistinctCardinality<T(!new)>(s: seq<T>)
    requires Distinct(s)
    ensures |Elements(s)| == |s|
  {
    if |s| > 0 {
      DistinctCardinality(s[..|s| - 1]);
      assert s[|s| - 1] !in s[..|s| - 1];
    }
  }

  ghost function Below(n: nat): (r: set<int>)
    ensures |r| == n
    ensures forall k :: k in r <==> 0 <= k < n
  {
    if n == 0 then {} else Below(n - 1) + {n - 1}
  }

  /** A list of distinct numbers below n has at most n entries, and with n entries it misses none. */
  lemma {:induction false} PigeonHole(s: seq<int>, n: nat)
    requires Within(s, n) && Distinct(s)
    ensures |s| <= n
    ensures |s| == n ==> forall k :: 0 <= k < n ==> k in s
  {
    DistinctCardinality(s);
    assert Elements(s) <= Below(n);
    assert |Below(n)| == |Elements(s)| + |Below(n) - Elements(s)|;
    if |s| == n {
      assert Below(n) - Elements(s) == {};
      forall k | 0 <= k < n ensures k in s {
        assert k in Below(n) && k in Elements(s);
      }
    }
  }

  /** A list of distinct numbers below n that misses none is a permutation. */
  lemma {:induction false} CoveringIsPermutation(s: seq<int>, n: nat)
    requires Within(s, n) && Distinct(s) && forall k :: 0 <= k < n ==> k in s
    ensures IsPermutation(s, n)
  {
    DistinctCardinality(s);
    assert Elements(s) == Below(n);
  }

  lemma Position(p: seq<int>, n: nat, j: int) returns (k: nat)
    requires IsPermutation(p, n) && 0 <= j < n
    ensures k < n && p[k] == j
  {
    PigeonHole(p, n);
    assert j in p;
    k :| 0 <= k < n && p[k] == j;
  }

  ghost function Sum(s: seq<real>): real {
    if |s| == 0 then 0.0 else Sum(s[..|s| - 1]) + s[|s| - 1]
  }

  ghost function Compose(v: seq<real>, p: seq<int>): (r: seq<real>)
    requires Within(p, |v|)
    ensures |r| == |p|
    ensures forall i :: 0 <= i < |p| ==> r[i] == v[p[i]]
  {
    seq(|p|, i requires 0 <= i < |p| => v[p[i]])
  }

  lemma {:induction false} SumUpdate(s: seq<real>, k: nat, a: real)
    requires k < |s|
    ensures Sum(s[k := a]) == Sum(s) - s[k] + a
  {
    var m := |s| - 1;
    if k == m {
      assert s[k := a][..m] == s[..m];
    } else {
      assert s[k := a][..m] == s[..m][k := a];
      SumUpdate(s[..m], k, a);
    }
  }

  lemma {:induction false} SumMonotone(s: seq<real>, t: seq<real>)
    requires |s| == |t|
    requires forall i :: 0 <= i < |s| ==> s[i] <= t[i]
    ensures Sum(s) <= Sum(t)
  {
    if |s| > 0 {
      SumMonotone(s[..|s| - 1], t[..|s| - 1]);
    }
  }

  lemma {:induction false} SumPlus(s: seq<real>, t: seq<real>, r: seq<real>)
    requires |s| == |t| == |r|
    requires forall i :: 0 <= i < |s| ==> r[i] == s[i] + t[i]
    ensures Sum(r) == Sum(s) + Sum(t)
  {
    if |s| > 0 {
      SumPlus(s[..|s| - 1], t[..|s| - 1], r[..|s| - 1]);
    }
  }

  lemma {:induction false} SumConcat(s: seq<real>, t: seq<real>)
    ensures Sum(s + t) == Sum(s) + Sum(t)
  {
    if |t| == 0 {
      assert s + t == s;
    } else {
      assert (s + t)[..|s + t| - 1] == s + t[..|t| - 1];
      SumConcat(s, t[..|t| - 1]);
    }
  }

  /** Reordering the terms of a sum does not change it. */
  lemma {:induction false} SumOfPermutation(v: seq<real>, p: seq<int>)
    requires IsPermutation(p, |v|)
    ensures Sum(Compose(v, p)) == Sum(v)
  {
    var m := |v| - 1;
    if m >= 0 {
      var k := Position(p, m + 1, m);
      // Move the value m to the last place and drop it.
      var q := p[k := p[m]][..m];
      DropLast(p, m, k);
      SumOfPermutation(v[..m], q);
      var c := Compose(v, p);
      SumUpdate(c, k, c[m]);
      assert c[k := c[m]][..m] == Compose(v[..m], q);
      assert c[k := c[m]][m] == c[m];
    }
  }

  lemma DropLast(p: seq<int>, m: nat, k: nat)
    requires IsPermutation(p, m + 1) && k <= m && p[k] == m
    ensures IsPermutation(p[k := p[m]][..m], m)
  {
  }
}
