/** The association rounds of one frame: who is matched with which detection, and what becomes of both. */
module Association {
  import opened Permutations
  import opened Assignment
  import opened Threshold
  import opened Rects
  import opened Tracks
  import opened TrackLists
  import opened Duplicates
  import opened LinearAssignment

  datatype Object = Object(rect: Rect, prob: real)

  /** Tracks seen this frame and detections not used yet: each object of the frame belongs to exactly one of them. */
  ghost predicate Sourced(w: set<STrack>, objects: seq<Object>)
    reads set t | t in w :: t`source, set t | t in w :: t`score
  {
    && (forall t :: t in w ==> t.source < |objects| && t.score == objects[t.source].prob)
    && (forall t, u :: t in w && u in w && t != u ==> t.source != u.source)
    && (forall i :: 0 <= i < |objects| ==> Covered(w, i))
  }

  ghost predicate Covered(w: set<STrack>, i: int)
    reads set t | t in w :: t`source
  {
    exists t :: t in w && t.source == i
  }

  /** Box and object of a track or detection when the frame began, and the frame it was last seen in. */
  datatype Seen = Seen(rect: Rect, source: nat, frame: nat)

  type Snapshot = map<STrack, Seen>

  ghost function Shot(s: seq<STrack>): Snapshot
    reads s
  {
    map t | t in s :: Seen(t.rect, t.source, t.frameId)
  }

  ghost predicate AsShot(snap: Snapshot, s: seq<STrack>)
    reads s
  {
    forall t :: t in s ==> t in snap && snap[t] == Seen(t.rect, t.source, t.frameId)
  }

  /** An unused detection. */
  ghost predicate Raw(d: STrack)
    reads d
  {
    d.state == New && !d.activated && d.trackId == 0
  }

  /** Detections in the order of their objects. */
  ghost predicate Ascending(dets: seq<STrack>)
    reads dets
  {
    forall i, j :: 0 <= i < j < |dets| ==> dets[i].source < dets[j].source
  }

  method MakeDetections(objects: seq<Object>, thresh: real) returns (dets: seq<STrack>, lows: seq<STrack>)
    ensures Distinct(dets) && Distinct(lows) && Members(dets) !! Members(lows)
    ensures forall d :: d in dets || d in lows ==> fresh(d) && Raw(d)
    ensures forall d :: d in dets ==> d.score >= thresh
    ensures forall d :: d in lows ==> d.score < thresh
    ensures |dets| + |lows| == |objects| && Ascending(dets) && Ascending(lows)
    ensures Sourced(Members(dets) + Members(lows), objects)
    ensures forall d :: d in dets || d in lows ==> d.source < |objects| && d.rect == objects[d.source].rect
  {
    hide Sourced, Ascending;
    AscendingNothing();
    dets, lows := [], [];
    NothingSourced(objects);
    for i := 0 to |objects|
      invariant Distinct(dets) && Distinct(lows) && Members(dets) !! Members(lows)
      invariant forall d :: d in dets || d in lows ==>
        fresh(d) && Raw(d) && d.source < i && d.rect == objects[d.source].rect
      invariant forall d :: d in dets ==> d.score >= thresh
      invariant forall d :: d in lows ==> d.score < thresh
      invariant |dets| + |lows| == i && Ascending(dets) && Ascending(lows)
      invariant Sourced(Members(dets) + Members(lows), objects[..i])
    {
      ghost var w := Members(dets) + Members(lows);
      var strack := new STrack(objects[i].rect, objects[i].prob, i);
      assert strack !in dets && strack !in lows;
      AscendingNext(dets, strack);
      AscendingNext(lows, strack);
      if objects[i].prob >= thresh {
        dets := dets + [strack];
      } else {
        lows := lows + [strack];
      }
      assert Members(dets) + Members(lows) == w + {strack};
      SourceAdded(w, strack, objects, i);
    }
    assert objects[..|objects|] == objects;
  }

  lemma AscendingNothing()
    ensures Ascending([])
  {
  }

  lemma AscendingNext(l: seq<STrack>, d: STrack)
    requires Ascending(l) && forall e :: e in l ==> e.source < d.source
    ensures Ascending(l + [d])
  {
  }

  lemma NothingSourced(objects: seq<Object>)
    ensures Sourced(Members([]) + Members([]), objects[..0])
  {
  }

  lemma SourceAdded(w: set<STrack>, d: STrack, objects: seq<Object>, i: nat)
    requires i < |objects| && Sourced(w, objects[..i]) && d !in w && d.source == i && d.score == objects[i].prob
    ensures Sourced(w + {d}, objects[..i + 1])
  {
    forall j | 0 <= j < i + 1
      ensures Covered(w + {d}, j)
    {
      if j < i {
        assert Covered(w, j);
        var t :| t in w && t.source == j;
        assert t in w + {d};
      } else {
        assert d in w + {d};
      }
    }
  }

  ghost function Sources(w: set<STrack>): map<STrack, nat>
    reads set t | t in w :: t`source
  {
    map t | t in w :: t.source
  }

  ghost predicate Listed(sources: map<STrack, nat>, i: int) {
    exists t :: t in sources && sources[t] == i
  }

  lemma SourcesListed(w: set<STrack>, objects: seq<Object>)
    requires Sourced(w, objects)
    ensures forall i :: 0 <= i < |objects| ==> Listed(Sources(w), i)
  {
    forall i | 0 <= i < |objects|
      ensures Listed(Sources(w), i)
    {
      assert Covered(w, i);
      var t :| t in w && t.source == i;
      assert t in Sources(w);
    }
  }

  /** A track that takes a detection's place keeps every object covered. */
  lemma SourceMoved(w: set<STrack>, sources: map<STrack, nat>, det: STrack, track: STrack, objects: seq<Object>)
    requires sources.Keys == w && (forall i :: 0 <= i < |objects| ==> Listed(sources, i))
    requires det in w && track !in w && track.source == sources[det]
    requires forall t :: t in w && t != det ==> t.source == sources[t]
    ensures forall i :: 0 <= i < |objects| ==> Covered(w - {det} + {track}, i)
  {
    forall i | 0 <= i < |objects|
      ensures Covered(w - {det} + {track}, i)
    {
      assert Listed(sources, i);
      var t: STrack :| t in sources && sources[t] == i;
      assert (if t == det then track else t) in w - {det} + {track};
    }
  }

  /** The tracks the first `end` matches name. */
  ghost function HitTracks(tracks: seq<STrack>, matches: seq<(int, int)>, end: nat): set<STrack>
    requires end <= |matches| && Within(Firsts(matches), |tracks|)
  {
    if end == 0 then {}
    else
      assert Firsts(matches)[end - 1] == matches[end - 1].0;
      HitTracks(tracks, matches, end - 1) + {tracks[matches[end - 1].0]}
  }

  /** The detections the first `end` matches name. */
  ghost function HitDetections(dets: seq<STrack>, matches: seq<(int, int)>, end: nat): set<STrack>
    requires end <= |matches| && Within(Seconds(matches), |dets|)
  {
    if end == 0 then {}
    else
      assert Seconds(matches)[end - 1] == matches[end - 1].1;
      HitDetections(dets, matches, end - 1) + {dets[matches[end - 1].1]}
  }

  ghost predicate Pairing(matches: seq<(int, int)>, n: nat, m: nat) {
    && Within(Firsts(matches), n) && Distinct(Firsts(matches))
    && Within(Seconds(matches), m) && Distinct(Seconds(matches))
  }

  lemma {:induction false} HitTracksMembers(tracks: seq<STrack>, matches: seq<(int, int)>, end: nat)
    requires end <= |matches| && Within(Firsts(matches), |tracks|)
    ensures HitTracks(tracks, matches, end) <= Members(tracks)
    ensures forall t :: t in HitTracks(tracks, matches, end) <==>
      exists k :: 0 <= k < end && tracks[Firsts(matches)[k]] == t
  {
    if end > 0 {
      HitTracksMembers(tracks, matches, end - 1);
      assert Firsts(matches)[end - 1] == matches[end - 1].0;
    }
  }

  lemma {:induction false} HitDetectionsMembers(dets: seq<STrack>, matches: seq<(int, int)>, end: nat)
    requires end <= |matches| && Within(Seconds(matches), |dets|)
    ensures HitDetections(dets, matches, end) <= Members(dets)
    ensures forall d :: d in HitDetections(dets, matches, end) <==>
      exists k :: 0 <= k < end && dets[Seconds(matches)[k]] == d
  {
    if end > 0 {
      HitDetectionsMembers(dets, matches, end - 1);
      assert Seconds(matches)[end - 1] == matches[end - 1].1;
    }
  }

  /** The next match names a track and a detection that no earlier match has named. */
  lemma NextMatchIsNew(tracks: seq<STrack>, dets: seq<STrack>, matches: seq<(int, int)>, k: nat)
    requires Pairing(matches, |tracks|, |dets|) && Distinct(tracks) && Distinct(dets) && k < |matches|
    ensures 0 <= matches[k].0 < |tracks| && 0 <= matches[k].1 < |dets|
    ensures tracks[matches[k].0] !in HitTracks(tracks, matches, k)
    ensures dets[matches[k].1] !in HitDetections(dets, matches, k)
    ensures HitTracks(tracks, matches, k + 1) == HitTracks(tracks, matches, k) + {tracks[matches[k].0]}
    ensures HitDetections(dets, matches, k + 1) == HitDetections(dets, matches, k) + {dets[matches[k].1]}
  {
    HitTracksMembers(tracks, matches, k);
    HitDetectionsMembers(dets, matches, k);
    assert Firsts(matches)[k] == matches[k].0 && Seconds(matches)[k] == matches[k].1;
  }

  lemma HitNothing(tracks: seq<STrack>, dets: seq<STrack>, matches: seq<(int, int)>)
    requires Pairing(matches, |tracks|, |dets|)
    ensures HitTracks(tracks, matches, 0) == {} && HitDetections(dets, matches, 0) == {}
  {
  }

  /** Seen in this frame. */
  ghost predicate Refreshed(t: STrack, frame: nat)
    reads t
  {
    t.state == Tracked && t.activated && t.frameId == frame
  }

  ghost function InState(l: seq<STrack>, s: TrackState): set<STrack>
    reads l
  {
    set t | t in l && t.state == s
  }

  /** Matched: update a track that is Tracked, re-activate any other under its own id. */
  method Refresh(track: STrack, det: STrack, frame: nat, ghost objects: seq<Object>, ghost w: set<STrack>)
    returns (wasTracked: bool)
    requires Sourced(w, objects) && det in w && track !in w
    modifies track
    ensures Sourced(w - {det} + {track}, objects)
    ensures wasTracked <==> old(track.state) == Tracked
    ensures Refreshed(track, frame)
    ensures track.trackId == old(track.trackId) && track.startFrameId == old(track.startFrameId)
    ensures track.source == old(det.source) && track.score == old(det.score)
  {
    SourcesListed(w, objects);
    ghost var sources := Sources(w);
    wasTracked := track.state == Tracked;
    if wasTracked {
      track.Update(det, frame);
    } else {
      track.ReActivate(det, frame, -1);
    }
    SourceMoved(w, sources, det, track, objects);
  }

  /** The detections that the first `end` matches give to their tracks. */
  ghost function Given(tracks: seq<STrack>, dets: seq<STrack>, matches: seq<(int, int)>, end: nat): map<STrack, STrack>
    requires end <= |matches| && Within(Firsts(matches), |tracks|) && Within(Seconds(matches), |dets|)
  {
    if end == 0 then map[]
    else
      assert Firsts(matches)[end - 1] == matches[end - 1].0 && Seconds(matches)[end - 1] == matches[end - 1].1;
      Given(tracks, dets, matches, end - 1)[tracks[matches[end - 1].0] := dets[matches[end - 1].1]]
  }

  lemma NothingGiven(tracks: seq<STrack>, dets: seq<STrack>, matches: seq<(int, int)>)
    requires Pairing(matches, |tracks|, |dets|)
    ensures Given(tracks, dets, matches, 0) == map[]
  {
  }

  lemma NextGiven(tracks: seq<STrack>, dets: seq<STrack>, matches: seq<(int, int)>, k: nat)
    requires Pairing(matches, |tracks|, |dets|) && k < |matches|
    ensures 0 <= matches[k].0 < |tracks| && 0 <= matches[k].1 < |dets|
    ensures Given(tracks, dets, matches, k + 1) ==
      Given(tracks, dets, matches, k)[tracks[matches[k].0] := dets[matches[k].1]]
  {
    assert Firsts(matches)[k] == matches[k].0 && Seconds(matches)[k] == matches[k].1;
  }

  /** Each matched track gets the detection it is matched with. */
  lemma {:induction false} GivenByMatches(tracks: seq<STrack>, dets: seq<STrack>, matches: seq<(int, int)>, end: nat)
    requires Pairing(matches, |tracks|, |dets|) && Distinct(tracks) && end <= |matches|
    ensures Given(tracks, dets, matches, end).Keys == HitTracks(tracks, matches, end)
    ensures forall k :: 0 <= k < end ==>
      && tracks[Firsts(matches)[k]] in Given(tracks, dets, matches, end)
      && Given(tracks, dets, matches, end)[tracks[Firsts(matches)[k]]] == dets[Seconds(matches)[k]]
  {
    if end > 0 {
      GivenByMatches(tracks, dets, matches, end - 1);
      assert Firsts(matches)[end - 1] == matches[end - 1].0 && Seconds(matches)[end - 1] == matches[end - 1].1;
    }
  }

  /** Lines 90 to 104 and 131 to 145 of BYTETracker.cpp: matched tracks go to the updated or to the refound list. */
  method Associate(tracks: seq<STrack>, dets: seq<STrack>, matches: seq<(int, int)>, frame: nat,
                   ghost objects: seq<Object>, ghost w: set<STrack>)
    returns (updated: seq<STrack>, refound: seq<STrack>, ghost w': set<STrack>, ghost given: map<STrack, STrack>)
    requires Pairing(matches, |tracks|, |dets|)
    requires Distinct(tracks) && Distinct(dets)
    requires Members(dets) <= w && Members(tracks) !! w && Sourced(w, objects)
    modifies tracks
    ensures forall t :: t in HitTracks(tracks, matches, |matches|) ==>
      Refreshed(t, frame) && t in given && given[t] in dets && t.source == old(given[t].source)
    ensures forall t :: t in tracks && t !in HitTracks(tracks, matches, |matches|) ==> unchanged(t)
    ensures forall t :: t in tracks ==> t.trackId == old(t.trackId) && t.startFrameId == old(t.startFrameId)
    ensures forall t :: t in updated <==>
      t in HitTracks(tracks, matches, |matches|) && t in old(InState(tracks, Tracked))
    ensures forall t :: t in refound <==>
      t in HitTracks(tracks, matches, |matches|) && t !in old(InState(tracks, Tracked))
    ensures w' == w - HitDetections(dets, matches, |matches|) + HitTracks(tracks, matches, |matches|)
    ensures Distinct(updated) && Distinct(refound) && Sourced(w', objects)
    ensures given == Given(tracks, dets, matches, |matches|)
  {
    updated, refound, w' := [], [], w;
    ghost var was := InState(tracks, Tracked);
    hide HitTracks, HitDetections, Sourced, Within, Given;
    HitNothing(tracks, dets, matches);
    given := map[];
    NothingGiven(tracks, dets, matches);
    for k := 0 to |matches|
      invariant HitTracks(tracks, matches, k) <= Members(tracks)
      invariant forall t :: t in HitTracks(tracks, matches, k) ==>
        Refreshed(t, frame) && t in given && given[t] in dets && t.source == old(given[t].source)
      invariant given == Given(tracks, dets, matches, k)
      invariant forall t :: t in tracks && t !in HitTracks(tracks, matches, k) ==> unchanged(t)
      invariant forall t :: t in tracks ==> t.trackId == old(t.trackId) && t.startFrameId == old(t.startFrameId)
      invariant (forall t :: t in updated <==> t in HitTracks(tracks, matches, k) && t in was) && Distinct(updated)
      invariant (forall t :: t in refound <==> t in HitTracks(tracks, matches, k) && t !in was) && Distinct(refound)
      invariant w' == w - HitDetections(dets, matches, k) + HitTracks(tracks, matches, k) && Sourced(w', objects)
    {
      NextMatchIsNew(tracks, dets, matches, k);
      var track, det := tracks[matches[k].0], dets[matches[k].1];
      assert track in tracks && det in dets && det in w' && track !in w';
      NextGiven(tracks, dets, matches, k);
      var wasTracked := Refresh(track, det, frame, objects, w');
      given := given[track := det];
      if wasTracked {
        updated := updated + [track];
      } else {
        refound := refound + [track];
      }
      w' := w' - {det} + {track};
    }
  }

  /** The matches are a best matching of the costs, and none of them costs more than the threshold. */
  ghost predicate BestPairs(matches: seq<(int, int)>, cost: Matrix, r: nat, c: nat, thresh: real, fill: real) {
    if r == 0 || c == 0 then matches == []
    else
      && Rectangular(cost, r, c) && IsFill(cost, r, c, thresh, fill)
      && (exists m :: Spells(matches, m) && BestMatching(cost, m, r, c, fill))
      && forall k :: 0 <= k < |matches| ==>
        0 <= matches[k].0 < r && 0 <= matches[k].1 < c && cost[matches[k].0][matches[k].1] <= thresh
  }

  /** The pairwise distances of the boxes in the snapshot; empty when a side is empty. */
  ghost predicate DistancesIn(cost: Matrix, snap: Snapshot, a: seq<STrack>, b: seq<STrack>) {
    && (forall t :: t in a ==> t in snap) && (forall t :: t in b ==> t in snap)
    && if |a| == 0 || |b| == 0 then cost == []
       else
         && Rectangular(cost, |a|, |b|)
         && forall i, j :: 0 <= i < |a| && 0 <= j < |b| ==>
           cost[i][j] == 1.0 - CalcIoU(snap[b[j]].rect, snap[a[i]].rect)
  }

  lemma DistancesShot(cost: Matrix, snap: Snapshot, a: seq<STrack>, b: seq<STrack>)
    requires Distances(cost, a, b) && AsShot(snap, a) && AsShot(snap, b)
    ensures DistancesIn(cost, snap, a, b)
  {
    forall i, j | 0 <= i < |a| && 0 <= j < |b| ensures cost[i][j] == 1.0 - CalcIoU(snap[b[j]].rect, snap[a[i]].rect) {
      assert a[i] in a && b[j] in b && cost[i][j] == Distance(a[i], b[j]);
    }
  }

  /** Each of these tracks has been seen as the object of the detection it was given. */
  ghost predicate Took(snap: Snapshot, given: map<STrack, STrack>, s: set<STrack>)
    reads set t | t in s :: t`source
  {
    forall t :: t in s ==> t in given && given[t] in snap && t.source == snap[given[t]].source
  }

  /** One association: the solver's answer, the distances and the price of a missing match it was given,
      and which detection each track took. */
  datatype Round = Round(a: Assigned, cost: Matrix, fill: real, given: map<STrack, STrack>)

  /** The round matched the tracks in `hit` as the solver said, by the boxes of the snapshot; the detections
      in `rest` were left over. */
  ghost predicate RoundOf(m: Round, snap: Snapshot, tracks: seq<STrack>, dets: seq<STrack>, thresh: real,
                          hit: set<STrack>, rest: seq<STrack>) {
    && DistancesIn(m.cost, snap, tracks, dets)
    && m.a.Assigned? && Partitions(m.a, |tracks|, |dets|) && Pairing(m.a.matches, |tracks|, |dets|)
    && (Moderate(thresh) ==> BestPairs(m.a.matches, m.cost, |tracks|, |dets|, thresh, m.fill))
    && hit == HitTracks(tracks, m.a.matches, |m.a.matches|)
    && m.given == Given(tracks, dets, m.a.matches, |m.a.matches|)
    && Within(m.a.bUnmatched, |dets|) && rest == Pick(dets, m.a.bUnmatched)
  }

  /** Limits the solver's sentinel is safe for: below half of it either way, or no limit at all. */
  ghost predicate Moderate(thresh: real) {
    -LARGE < 2.0 * thresh < LARGE || FLOAT_MAX <= thresh
  }

  /** Box distances and thresholded assignment. Distances lie in [0, 1], so a moderate threshold keeps the solver
      exact: it does not throw, the matching is a best one and no matched pair is farther apart than the threshold. */
  method MatchTracks(tracks: seq<STrack>, dets: seq<STrack>, thresh: real)
    returns (a: Assigned, ghost cost: Matrix, ghost fill: real)
    ensures a.Assigned? ==> Partitions(a, |tracks|, |dets|)
    ensures Distances(cost, tracks, dets)
    ensures Moderate(thresh) ==> a.Assigned? && BestPairs(a.matches, cost, |tracks|, |dets|, thresh, fill)
  {
    hide *;
    var dists := CalcIouDistance(tracks, dets);
    DistancesShape(dists, tracks, dets);
    cost := dists;
    ghost var ext;
    a, ext, fill := Assign(dists, |tracks|, |dets|, thresh);
    if Moderate(thresh) {
      if |tracks| > 0 && |dets| > 0 {
        ModerateFits(ext, dists, |tracks|, |dets|, thresh, fill);
        PairsAreBest(a.matches, dists, |tracks|, |dets|, thresh, fill);
      } else {
        NoPairs(dists, |tracks|, |dets|, thresh, fill);
      }
    }
  }

  lemma NoPairs(cost: Matrix, r: nat, c: nat, thresh: real, fill: real)
    requires r == 0 || c == 0
    ensures BestPairs([], cost, r, c, thresh, fill)
  {
  }

  lemma ModerateFits(ext: Matrix, cost: Matrix, r: nat, c: nat, thresh: real, fill: real)
    requires Extends(ext, cost, r, c, fill) && IsFill(cost, r, c, thresh, fill) && Moderate(thresh)
    requires forall i, j :: 0 <= i < r && 0 <= j < c ==> 0.0 <= cost[i][j] <= 1.0
    ensures WithinSentinel(ext, r + c)
  {
    FillModerate(cost, r, c, thresh, fill);
    hide IsFill, Moderate, WithinSentinel;
    ExtendedWithinSentinel(ext, cost, r, c, fill, Bound(fill));
  }

  ghost function Bound(fill: real): real {
    if fill < -1.0 then -fill else if fill > 1.0 then fill else 1.0
  }

  lemma FillModerate(cost: Matrix, r: nat, c: nat, thresh: real, fill: real)
    requires Rectangular(cost, r, c) && IsFill(cost, r, c, thresh, fill) && Moderate(thresh)
    requires forall i, j :: 0 <= i < r && 0 <= j < c ==> 0.0 <= cost[i][j] <= 1.0
    ensures -Bound(fill) <= fill <= Bound(fill) && 4.0 * Bound(fill) < LARGE && 1.0 <= Bound(fill)
  {
  }

  lemma DistancesShape(cost: Matrix, tracks: seq<STrack>, dets: seq<STrack>)
    requires Distances(cost, tracks, dets)
    ensures if |tracks| == 0 || |dets| == 0 then cost == []
            else
              && Rectangular(cost, |tracks|, |dets|) && |cost| == |tracks|
              && (forall i :: 0 <= i < |tracks| ==> |cost[i]| == |dets|)
              && (forall i, j :: 0 <= i < |tracks| && 0 <= j < |dets| ==> 0.0 <= cost[i][j] <= 1.0)
  {
    if |tracks| > 0 && |dets| > 0 {
      forall i, j | 0 <= i < |tracks| && 0 <= j < |dets| ensures 0.0 <= cost[i][j] <= 1.0 {
        assert cost[i][j] == Distance(tracks[i], dets[j]);
      }
    }
  }

  lemma PairsAreBest(matches: seq<(int, int)>, cost: Matrix, r: nat, c: nat, thresh: real, fill: real)
    requires Rectangular(cost, r, c) && r > 0 && c > 0 && IsFill(cost, r, c, thresh, fill)
    requires forall i, j :: 0 <= i < r && 0 <= j < c ==> 0.0 <= cost[i][j] <= 1.0
    requires exists m :: Spells(matches, m) && BestMatching(cost, m, r, c, fill)
    ensures BestPairs(matches, cost, r, c, thresh, fill)
  {
    var m :| Spells(matches, m) && BestMatching(cost, m, r, c, fill);
    forall k | 0 <= k < |matches|
      ensures 0 <= matches[k].0 < r && 0 <= matches[k].1 < c && cost[matches[k].0][matches[k].1] <= thresh
    {
      KeptPairsWithinLimit(cost, m, r, c, fill, matches[k].0);
    }
  }

  /** No track is matched with a detection farther away than the threshold. */
  lemma {:induction false} GivenIsNear(m: Round, snap: Snapshot, tracks: seq<STrack>, dets: seq<STrack>, thresh: real,
                                       hit: set<STrack>, rest: seq<STrack>, t: STrack)
    requires RoundOf(m, snap, tracks, dets, thresh, hit, rest) && Distinct(tracks) && Moderate(thresh) && t in hit
    ensures t in tracks && t in m.given && m.given[t] in dets && t in snap && m.given[t] in snap
    ensures 1.0 - CalcIoU(snap[m.given[t]].rect, snap[t].rect) <= thresh
  {
    var matches := m.a.matches;
    hide Partitions, BestMatching, IsFill, CalcIoU;
    HitTracksMembers(tracks, matches, |matches|);
    GivenByMatches(tracks, dets, matches, |matches|);
    var k :| 0 <= k < |matches| && tracks[Firsts(matches)[k]] == t;
    assert m.given[t] == dets[Seconds(matches)[k]];
    assert m.cost[matches[k].0][matches[k].1] <= thresh;
  }

  /** The elements of l at the given positions, in order. */
  function Pick(l: seq<STrack>, idx: seq<int>): (r: seq<STrack>)
    requires Within(idx, |l|)
    ensures |r| == |idx| && forall k :: 0 <= k < |idx| ==> r[k] == l[idx[k]]
  {
    seq(|idx|, k requires 0 <= k < |idx| => l[idx[k]])
  }

  /** A partition sorts the tracks into matched and unmatched ones, and the detections likewise. */
  lemma {:induction false} PartitionSplits(tracks: seq<STrack>, dets: seq<STrack>, a: Assigned)
    requires a.Assigned? && Partitions(a, |tracks|, |dets|) && Distinct(tracks) && Distinct(dets)
    ensures Pairing(a.matches, |tracks|, |dets|)
    ensures Within(a.aUnmatched, |tracks|) && Distinct(Pick(tracks, a.aUnmatched))
    ensures Within(a.bUnmatched, |dets|) && Distinct(Pick(dets, a.bUnmatched))
    ensures HitTracks(tracks, a.matches, |a.matches|) <= Members(tracks)
    ensures forall t :: t in tracks ==>
      (t in Pick(tracks, a.aUnmatched) <==> t !in HitTracks(tracks, a.matches, |a.matches|))
    ensures forall t :: t in Pick(tracks, a.aUnmatched) ==> t in tracks
    ensures forall d :: d in dets ==>
      (d in Pick(dets, a.bUnmatched) <==> d !in HitDetections(dets, a.matches, |a.matches|))
    ensures forall d :: d in Pick(dets, a.bUnmatched) ==> d in dets
    ensures HitDetections(dets, a.matches, |a.matches|) <= Members(dets)
  {
    var n := |a.matches|;
    SplitPermutation(Firsts(a.matches), a.aUnmatched, |tracks|);
    SplitPermutation(Seconds(a.matches), a.bUnmatched, |dets|);
    HitTracksMembers(tracks, a.matches, n);
    HitDetectionsMembers(dets, a.matches, n);
    PickSplits(tracks, Firsts(a.matches), a.aUnmatched);
    PickSplits(dets, Seconds(a.matches), a.bUnmatched);
  }

  lemma {:induction false} SplitPermutation(f: seq<int>, g: seq<int>, n: nat)
    requires IsPermutation(f + g, n)
    ensures Within(f, n) && Within(g, n) && Distinct(f) && Distinct(g)
    ensures forall i :: 0 <= i < n ==> (i in f <==> i !in g)
  {
    forall k | 0 <= k < |f| ensures 0 <= f[k] < n {
      assert (f + g)[k] == f[k];
    }
    forall k | 0 <= k < |g| ensures 0 <= g[k] < n {
      assert (f + g)[|f| + k] == g[k];
    }
    forall i, j | 0 <= i < j < |f| ensures f[i] != f[j] {
      assert (f + g)[i] != (f + g)[j];
    }
    forall i, j | 0 <= i < j < |g| ensures g[i] != g[j] {
      assert (f + g)[|f| + i] != (f + g)[|f| + j];
    }
    forall k, l | 0 <= k < |f| && 0 <= l < |g| ensures f[k] != g[l] {
      assert (f + g)[k] != (f + g)[|f| + l];
    }
    PigeonHole(f + g, n);
    forall i | 0 <= i < n ensures i in f <==> i !in g {
      assert i in f + g;
    }
  }

  lemma {:induction false} PickSplits(l: seq<STrack>, f: seq<int>, g: seq<int>)
    requires Distinct(l) && Within(f, |l|) && Within(g, |l|) && Distinct(g)
    requires forall i :: 0 <= i < |l| ==> (i in f <==> i !in g)
    ensures Distinct(Pick(l, g)) && (forall t :: t in Pick(l, g) ==> t in l)
    ensures forall t :: t in l ==> (t in Pick(l, g) <==> !exists k :: 0 <= k < |f| && l[f[k]] == t)
  {
    forall t | t in l ensures t in Pick(l, g) <==> !exists k :: 0 <= k < |f| && l[f[k]] == t {
      var i :| 0 <= i < |l| && l[i] == t;
      if i in f {
        var k :| 0 <= k < |f| && f[k] == i;
        assert l[f[k]] == t;
      } else {
        var k :| 0 <= k < |g| && g[k] == i;
        assert Pick(l, g)[k] == t;
      }
    }
  }

  // ----- Round one -----

  /** Lines 111 to 117 of BYTETracker.cpp: unmatched tracks that are still Tracked go on to round two. */
  method StillTracked(tracks: seq<STrack>, idx: seq<int>) returns (res: seq<STrack>)
    requires Within(idx, |tracks|) && Distinct(Pick(tracks, idx))
    ensures Distinct(res)
    ensures forall t :: t in res <==> t in Pick(tracks, idx) && t.state == Tracked
  {
    res := [];
    ghost var p := Pick(tracks, idx);
    for k := 0 to |idx|
      invariant Distinct(res)
      invariant forall t :: t in res <==> t in p[..k] && t.state == Tracked
    {
      assert p[k] == tracks[idx[k]] && p[k] !in p[..k];
      if tracks[idx[k]].state == Tracked {
        res := res + [tracks[idx[k]]];
      }
    }
    assert p[..|idx|] == p;
  }
}
