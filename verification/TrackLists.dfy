/** The id-keyed list operations of the tracker and the pairwise box distances. */
module TrackLists {
  import opened Permutations
  import opened Tracks

  /** No two different tracks of the collection share an id. */
  ghost predicate Unique(s: set<STrack>)
    reads s
  {
    forall t, u :: t in s && u in s && t.trackId == u.trackId ==> t == u
  }

  ghost function Members(l: seq<STrack>): set<STrack> {
    set t | t in l
  }

  /** a, then the tracks of b with an id not seen before. */
  method JointStracks(a: seq<STrack>, b: seq<STrack>) returns (res: seq<STrack>)
    ensures |a| <= |res| && res[..|a|] == a
    ensures forall t :: t in res ==> t in a || t in b
    ensures forall t :: t in b ==> exists u :: u in res && u.trackId == t.trackId
    ensures forall i, j :: 0 <= i < j < |res| && |a| <= j ==> res[i].trackId != res[j].trackId
    ensures Unique(Members(a + b)) ==> forall t :: t in a || t in b ==> t in res
    ensures Distinct(a) ==> Distinct(res)
  {
    var exists': set<nat> := {};
    res := [];
    for i := 0 to |a|
      invariant res == a[..i]
      invariant forall k :: k in exists' <==> exists t :: t in res && t.trackId == k
    {
      exists' := exists' + {a[i].trackId};
      res := res + [a[i]];
      assert a[..i + 1] == a[..i] + [a[i]];
    }
    assert a[..|a|] == a;
    for i := 0 to |b|
      invariant |a| <= |res| && res[..|a|] == a
      invariant forall t :: t in res ==> t in a || t in b
      invariant forall k :: k in exists' <==> exists t :: t in res && t.trackId == k
      invariant forall k :: 0 <= k < i ==> b[k].trackId in exists'
      invariant forall k, j :: 0 <= k < j < |res| && |a| <= j ==> res[k].trackId != res[j].trackId
    {
      if b[i].trackId !in exists' {
        assert forall k :: 0 <= k < |res| ==> res[k] in res;
        exists' := exists' + {b[i].trackId};
        res := res + [b[i]];
        assert b[i] in b && res[|res| - 1] == b[i];
      }
    }
    forall t | t in b ensures exists u :: u in res && u.trackId == t.trackId {
      var k :| 0 <= k < |b| && b[k] == t;
    }
    forall t | t in a ensures t in res {
      var k :| 0 <= k < |a| && a[k] == t;
      assert res[..|a|][k] == res[k];
    }
    if Unique(Members(a + b)) {
      forall t | t in b ensures t in res {
        var u :| u in res && u.trackId == t.trackId;
        assert u in a + b && t in a + b;
      }
    }
    if Distinct(a) {
      forall i, j | 0 <= i < j < |res| ensures res[i] != res[j] {
        if j < |a| {
          assert res[..|a|][i] == res[i] && res[..|a|][j] == res[j];
        }
      }
    }
  }

  lemma {:induction false} LeastKey(s: set<nat>) returns (k: nat)
    requires s != {}
    ensures k in s && forall j :: j in s ==> k <= j
  {
    var first :| first in s;
    k := first;
    var rest := s - {first};
    if rest != {} {
      var l := LeastKey(rest);
      k := if l < first then l else first;
      assert forall j :: j in s ==> j == first || j in rest;
    } else {
      assert s == {first};
    }
  }

  /** The values of a map in ascending order of key, as a std::map iterates. */
  method ValuesInOrder(m: map<nat, STrack>) returns (res: seq<STrack>, keys: seq<nat>)
    ensures |res| == |keys|
    ensures forall i, j :: 0 <= i < j < |keys| ==> keys[i] < keys[j]
    ensures forall i :: 0 <= i < |keys| ==> keys[i] in m && res[i] == m[keys[i]]
    ensures forall k :: k in m ==> k in keys
  {
    res, keys := [], [];
    var rest := m.Keys;
    while rest != {}
      invariant rest <= m.Keys && |res| == |keys|
      invariant forall i, j :: 0 <= i < j < |keys| ==> keys[i] < keys[j]
      invariant forall i :: 0 <= i < |keys| ==> keys[i] in m && res[i] == m[keys[i]]
      invariant forall i, k :: 0 <= i < |keys| && k in rest ==> keys[i] < k
      invariant forall k :: k in m ==> k in rest || k in keys
      decreases |rest|
    {
      ghost var least := LeastKey(rest);
      var k :| k in rest && forall j :: j in rest ==> k <= j;
      res, keys := res + [m[k]], keys + [k];
      rest := rest - {k};
    }
  }

  /** The first track of a for each id that does not occur in b. */
  method KeepUnlisted(a: seq<STrack>, b: seq<STrack>) returns (stracks: map<nat, STrack>)
    ensures forall k :: k in stracks ==> stracks[k] in a && stracks[k].trackId == k
    ensures forall k :: k in stracks ==> forall l :: 0 <= l < |b| ==> b[l].trackId != k
    ensures forall k :: 0 <= k < |a| ==>
      a[k].trackId in stracks || exists l :: 0 <= l < |b| && b[l].trackId == a[k].trackId
  {
    stracks := map[];
    for i := 0 to |a|
      invariant forall k :: k in stracks ==> stracks[k] in a && stracks[k].trackId == k
      invariant forall k :: 0 <= k < i ==> a[k].trackId in stracks
    {
      if a[i].trackId !in stracks {
        stracks := stracks[a[i].trackId := a[i]];
      }
    }
    for i := 0 to |b|
      invariant forall k :: k in stracks ==> stracks[k] in a && stracks[k].trackId == k
      invariant forall k :: 0 <= k < |a| ==>
        a[k].trackId in stracks || exists l :: 0 <= l < i && b[l].trackId == a[k].trackId
      invariant forall l :: 0 <= l < i ==> b[l].trackId !in stracks
    {
      stracks := stracks - {b[i].trackId};
    }
  }

  /** The tracks of a whose id does not occur in b, one per id, in ascending order of id. */
  method SubStracks(a: seq<STrack>, b: seq<STrack>) returns (res: seq<STrack>)
    ensures forall i, j :: 0 <= i < j < |res| ==> res[i].trackId < res[j].trackId
    ensures forall t :: t in res ==> t in a && forall u :: u in b ==> u.trackId != t.trackId
    ensures forall t :: t in a && (forall u :: u in b ==> u.trackId != t.trackId) ==>
      exists w :: w in res && w.trackId == t.trackId
    ensures Unique(Members(a + b)) ==> Distinct(res) && forall t :: t in res <==> t in a && t !in b
  {
    var stracks := KeepUnlisted(a, b);
    var keys;
    res, keys := ValuesInOrder(stracks);
    forall t | t in res ensures t in a && forall u :: u in b ==> u.trackId != t.trackId {
      var i :| 0 <= i < |res| && res[i] == t;
      assert keys[i] in stracks;
    }
    forall t | t in a && (forall u :: u in b ==> u.trackId != t.trackId)
      ensures exists w :: w in res && w.trackId == t.trackId
    {
      var k :| 0 <= k < |a| && a[k] == t;
      assert t.trackId in keys;
      var i :| 0 <= i < |keys| && keys[i] == t.trackId;
      assert res[i] in res;
    }
    if Unique(Members(a + b)) {
      SubOfUnique(a, b, res);
    }
  }

  lemma SubOfUnique(a: seq<STrack>, b: seq<STrack>, res: seq<STrack>)
    requires Unique(Members(a + b))
    requires forall t :: t in res ==> t in a && forall u :: u in b ==> u.trackId != t.trackId
    requires forall t :: t in a && (forall u :: u in b ==> u.trackId != t.trackId) ==>
      exists w :: w in res && w.trackId == t.trackId
    requires forall i, j :: 0 <= i < j < |res| ==> res[i].trackId < res[j].trackId
    ensures Distinct(res)
    ensures forall t :: t in res <==> t in a && t !in b
  {
    forall t | t in a && t !in b ensures t in res {
      assert t in a + b && forall u :: u in b ==> u in a + b;
      var w :| w in res && w.trackId == t.trackId;
      assert w in a + b;
    }
  }
}
