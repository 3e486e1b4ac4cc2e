/** De-duplication of tracked against lost tracks: which of two overlapping tracks goes, and who survives. */
module Duplicates {
  import opened Permutations
  import opened Assignment
  import opened Threshold
  import opened Rects
  import opened Tracks

  /** Tracked tracks are the a side, lost tracks the b side. */
  datatype Node = A(i: int) | B(j: int)

  /** Pairwise distances and the age, in frames, of each track. */
  datatype Overlaps = Overlaps(dist: Matrix, ageA: seq<int>, ageB: seq<int>) {
    ghost predicate Valid() {
      |ageA| == 0 || |ageB| == 0 || Rectangular(dist, |ageA|, |ageB|)
    }

    ghost predicate Has(n: Node) {
      match n
      case A(i) => 0 <= i < |ageA|
      case B(j) => 0 <= j < |ageB|
    }

    ghost function Age(n: Node): int
      requires Has(n)
    {
      match n
      case A(i) => ageA[i]
      case B(j) => ageB[j]
    }

    ghost predicate Close(i: int, j: int)
      requires Valid() && 0 <= i < |ageA| && 0 <= j < |ageB|
    {
      dist[i][j] < 0.15
    }

    ghost predicate Linked(m: Node, n: Node)
      requires Valid() && Has(m) && Has(n)
    {
      match (m, n)
      case (A(i), B(j)) => Close(i, j)
      case (B(j), A(i)) => Close(i, j)
      case _ => false
    }

    /** A tracked track yields to any close lost track that is at least as old, a lost one to an older tracked one. */
    ghost predicate Dropped(n: Node)
      requires Valid() && Has(n)
    {
      match n
      case A(i) => exists j :: 0 <= j < |ageB| && Close(i, j) && ageA[i] <= ageB[j]
      case B(j) => exists i :: 0 <= i < |ageA| && Close(i, j) && ageA[i] > ageB[j]
    }

    ghost predicate Chain(path: seq<Node>)
      requires Valid()
    {
      && |path| >= 1 && (forall k :: 0 <= k < |path| ==> Has(path[k]))
      && (forall k :: 0 <= k < |path| - 1 ==> Linked(path[k], path[k + 1]) && Age(path[k]) <= Age(path[k + 1]))
    }
  }

  /** Of two close tracks at least one goes, so no close pair is kept. */
  lemma NoClosePairKept(o: Overlaps, i: int, j: int)
    requires o.Valid() && 0 <= i < |o.ageA| && 0 <= j < |o.ageB|
    requires !o.Dropped(A(i)) && !o.Dropped(B(j))
    ensures !o.Close(i, j)
  {
  }

  /** Every track is linked, through ever older overlapping tracks, to one that is kept. */
  lemma {:induction false} Survivor(o: Overlaps, n: Node, bound: int) returns (path: seq<Node>)
    requires o.Valid() && o.Has(n)
    requires (forall i :: 0 <= i < |o.ageA| ==> o.ageA[i] <= bound)
    requires (forall j :: 0 <= j < |o.ageB| ==> o.ageB[j] <= bound)
    ensures o.Chain(path) && path[0] == n && !o.Dropped(path[|path| - 1])
    decreases bound - o.Age(n), if n.A? then 1 else 0
  {
    if !o.Dropped(n) {
      path := [n];
    } else {
      var next: Node;
      match n {
        case A(i) =>
          var j :| 0 <= j < |o.ageB| && o.Close(i, j) && o.ageA[i] <= o.ageB[j];
          next := B(j);
        case B(j) =>
          var i :| 0 <= i < |o.ageA| && o.Close(i, j) && o.ageA[i] > o.ageB[j];
          next := A(i);
      }
      var rest := Survivor(o, next, bound);
      path := [n] + rest;
    }
  }

  function Distance(t: STrack, u: STrack): (d: real)
    reads t, u
    ensures 0.0 <= d <= 1.0
  {
    1.0 - CalcIoU(u.rect, t.rect)
  }

  ghost predicate Distances(cost: Matrix, a: seq<STrack>, b: seq<STrack>)
    reads a, b
  {
    if |a| == 0 || |b| == 0 then cost == []
    else
      && Rectangular(cost, |a|, |b|)
      && forall i, j :: 0 <= i < |a| && 0 <= j < |b| ==> cost[i][j] == Distance(a[i], b[j])
  }

  /** `calcIouDistance`: empty as soon as one side is. */
  method CalcIouDistance(a: seq<STrack>, b: seq<STrack>) returns (cost: Matrix)
    ensures Distances(cost, a, b)
  {
    cost := [];
    if |a| * |b| == 0 {
      return;
    }
    for i := 0 to |a|
      invariant |cost| == i
      invariant forall k :: 0 <= k < i ==> |cost[k]| == |b|
      invariant forall k, j :: 0 <= k < i && 0 <= j < |b| ==> cost[k][j] == Distance(a[k], b[j])
    {
      var row := [];
      for j := 0 to |b|
        invariant |row| == j
        invariant forall l :: 0 <= l < j ==> row[l] == Distance(a[i], b[l])
      {
        row := row + [Distance(a[i], b[j])];
      }
      cost := cost + [row];
    }
  }

  function Age(t: STrack): int
    reads t
  {
    t.frameId - t.startFrameId
  }

  ghost function Ages(s: seq<STrack>): (r: seq<int>)
    reads s
    ensures |r| == |s| && forall i :: 0 <= i < |s| ==> r[i] == s[i].frameId - s[i].startFrameId
  {
    seq(|s|, i requires 0 <= i < |s| reads s => Age(s[i]))
  }

  /** The elements of s whose flag is not set, in order. */
  function Keep(s: seq<STrack>, drop: seq<bool>): (r: seq<STrack>)
    requires |s| == |drop|
  {
    if |s| == 0 then []
    else
      var n := |s| - 1;
      Keep(s[..n], drop[..n]) + if drop[n] then [] else [s[n]]
  }

  lemma {:induction false} KeepMembers(s: seq<STrack>, drop: seq<bool>)
    requires |s| == |drop|
    ensures forall t :: t in Keep(s, drop) <==> exists i :: 0 <= i < |s| && s[i] == t && !drop[i]
    ensures Distinct(s) ==> Distinct(Keep(s, drop))
  {
    if |s| > 0 {
      var n := |s| - 1;
      KeepMembers(s[..n], drop[..n]);
      if Distinct(s) {
        assert s[n] !in Keep(s[..n], drop[..n]);
      }
    }
  }

  ghost predicate OverlapsOf(o: Overlaps, a: seq<STrack>, b: seq<STrack>)
    reads a, b
  {
    o.Valid() && o.ageA == Ages(a) && o.ageB == Ages(b) && Distances(o.dist, a, b)
  }

  ghost predicate DropFlags(o: Overlaps, dropA: seq<bool>, dropB: seq<bool>)
    requires o.Valid()
  {
    && |dropA| == |o.ageA| && |dropB| == |o.ageB|
    && (forall i :: 0 <= i < |dropA| ==> (dropA[i] <==> o.Dropped(A(i))))
    && (forall j :: 0 <= j < |dropB| ==> (dropB[j] <==> o.Dropped(B(j))))
  }

  /** The index pairs of the close tracks, row by row. */
  method ClosePairs(o: Overlaps) returns (pairs: seq<(nat, nat)>)
    requires o.Valid() && (|o.ageA| == 0 || |o.ageB| == 0 ==> o.dist == [])
    ensures forall k :: 0 <= k < |pairs| ==>
      pairs[k].0 < |o.ageA| && pairs[k].1 < |o.ageB| && o.Close(pairs[k].0, pairs[k].1)
    ensures forall i, j :: 0 <= i < |o.ageA| && 0 <= j < |o.ageB| && o.Close(i, j) ==> (i, j) in pairs
  {
    pairs := [];
    for i := 0 to |o.dist|
      invariant forall k :: 0 <= k < |pairs| ==>
        pairs[k].0 < |o.ageA| && pairs[k].1 < |o.ageB| && o.Close(pairs[k].0, pairs[k].1)
      invariant forall k, j :: 0 <= k < i && 0 <= j < |o.ageB| && o.Close(k, j) ==> (k, j) in pairs
    {
      for j := 0 to |o.dist[i]|
        invariant forall k :: 0 <= k < |pairs| ==>
          pairs[k].0 < |o.ageA| && pairs[k].1 < |o.ageB| && o.Close(pairs[k].0, pairs[k].1)
        invariant forall k, l :: 0 <= k < i && 0 <= l < |o.ageB| && o.Close(k, l) ==> (k, l) in pairs
        invariant forall l :: 0 <= l < j && o.Close(i, l) ==> (i, l) in pairs
      {
        if o.dist[i][j] < 0.15 {
          pairs := pairs + [(i, j)];
        }
      }
    }
  }

  /** Marks one track of each close pair. */
  method MarkDropped(o: Overlaps, pairs: seq<(nat, nat)>) returns (dropA: seq<bool>, dropB: seq<bool>)
    requires o.Valid()
    requires forall k :: 0 <= k < |pairs| ==>
      pairs[k].0 < |o.ageA| && pairs[k].1 < |o.ageB| && o.Close(pairs[k].0, pairs[k].1)
    requires forall i, j :: 0 <= i < |o.ageA| && 0 <= j < |o.ageB| && o.Close(i, j) ==> (i, j) in pairs
    ensures DropFlags(o, dropA, dropB)
  {
    dropA, dropB := seq(|o.ageA|, _ => false), seq(|o.ageB|, _ => false);
    for k := 0 to |pairs|
      invariant |dropA| == |o.ageA| && |dropB| == |o.ageB|
      invariant forall i :: 0 <= i < |dropA| && dropA[i] ==> o.Dropped(A(i))
      invariant forall j :: 0 <= j < |dropB| && dropB[j] ==> o.Dropped(B(j))
      invariant forall l :: 0 <= l < k ==>
        if o.ageA[pairs[l].0] > o.ageB[pairs[l].1] then dropB[pairs[l].1] else dropA[pairs[l].0]
    {
      var (i, j) := pairs[k];
      if o.ageA[i] > o.ageB[j] {
        dropB := dropB[j := true];
      } else {
        dropA := dropA[i := true];
      }
    }
    forall i | 0 <= i < |dropA| && o.Dropped(A(i)) ensures dropA[i] {
      var j :| 0 <= j < |o.ageB| && o.Close(i, j) && o.ageA[i] <= o.ageB[j];
      var l :| 0 <= l < |pairs| && pairs[l] == (i, j);
    }
    forall j | 0 <= j < |dropB| && o.Dropped(B(j)) ensures dropB[j] {
      var i :| 0 <= i < |o.ageA| && o.Close(i, j) && o.ageA[i] > o.ageB[j];
      var l :| 0 <= l < |pairs| && pairs[l] == (i, j);
    }
  }

  method AgeList(s: seq<STrack>) returns (ages: seq<int>)
    ensures ages == Ages(s)
  {
    ages := [];
    for i := 0 to |s|
      invariant |ages| == i && forall k :: 0 <= k < i ==> ages[k] == Age(s[k])
    {
      ages := ages + [Age(s[i])];
    }
  }

  method KeepUnmarked(s: seq<STrack>, drop: seq<bool>) returns (res: seq<STrack>)
    requires |s| == |drop|
    ensures res == Keep(s, drop)
    ensures (forall t :: t in res ==> t in s) && (Distinct(s) ==> Distinct(res))
  {
    res := [];
    for i := 0 to |s|
      invariant res == Keep(s[..i], drop[..i])
    {
      if !drop[i] {
        res := res + [s[i]];
      }
      assert s[..i + 1][..i] == s[..i] && drop[..i + 1][..i] == drop[..i];
    }
    assert s[..|s|] == s && drop[..|s|] == drop;
    KeepMembers(s, drop);
  }

  /** `removeDuplicateStracks`: both lists without the dropped tracks, order kept. */
  method RemoveDuplicateStracks(a: seq<STrack>, b: seq<STrack>)
    returns (aRes: seq<STrack>, bRes: seq<STrack>, ghost o: Overlaps, ghost dropA: seq<bool>, ghost dropB: seq<bool>)
    ensures OverlapsOf(o, a, b) && DropFlags(o, dropA, dropB)
    ensures |a| == |dropA| && |b| == |dropB| && aRes == Keep(a, dropA) && bRes == Keep(b, dropB)
    ensures (forall t :: t in aRes ==> t in a) && (Distinct(a) ==> Distinct(aRes))
    ensures (forall t :: t in bRes ==> t in b) && (Distinct(b) ==> Distinct(bRes))
  {
    hide *;
    var dist := CalcIouDistance(a, b);
    var ages := AgeList(a);
    var bges := AgeList(b);
    var overlaps := Overlaps(dist, ages, bges);
    OverlapsMade(overlaps, a, b);
    var pairs := ClosePairs(overlaps);
    var fa, fb := MarkDropped(overlaps, pairs);
    o, dropA, dropB := overlaps, fa, fb;
    FlagLengths(overlaps, fa, fb);
    aRes := KeepUnmarked(a, fa);
    bRes := KeepUnmarked(b, fb);
  }

  lemma OverlapsMade(o: Overlaps, a: seq<STrack>, b: seq<STrack>)
    requires Distances(o.dist, a, b) && o.ageA == Ages(a) && o.ageB == Ages(b)
    ensures OverlapsOf(o, a, b) && o.Valid() && |o.ageA| == |a| && |o.ageB| == |b|
    ensures |o.ageA| == 0 || |o.ageB| == 0 ==> o.dist == []
  {
  }

  lemma FlagLengths(o: Overlaps, dropA: seq<bool>, dropB: seq<bool>)
    requires o.Valid() && DropFlags(o, dropA, dropB)
    ensures |dropA| == |o.ageA| && |dropB| == |o.ageB|
  {
  }

  /** What de-duplication leaves: no kept pair overlaps, and every track, kept or not, is linked by a chain
      of overlapping pairs of never decreasing age to a kept one. */
  lemma {:induction false} DeduplicationKeepsSurvivor(o: Overlaps, a: seq<STrack>, b: seq<STrack>, n: Node, bound: int)
    returns (path: seq<Node>)
    requires OverlapsOf(o, a, b) && o.Has(n)
    requires (forall t :: t in a ==> Age(t) <= bound) && (forall t :: t in b ==> Age(t) <= bound)
    ensures o.Chain(path) && path[0] == n && !o.Dropped(path[|path| - 1])
    ensures forall i, j :: 0 <= i < |a| && 0 <= j < |b| && !o.Dropped(A(i)) && !o.Dropped(B(j)) ==>
      Distance(a[i], b[j]) >= 0.15
  {
    path := Survivor(o, n, bound);
    forall i, j | 0 <= i < |a| && 0 <= j < |b| && !o.Dropped(A(i)) && !o.Dropped(B(j))
      ensures Distance(a[i], b[j]) >= 0.15
    {
      NoClosePairKept(o, i, j);
    }
  }
}
