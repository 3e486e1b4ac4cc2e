/** Steps 2 to 4 of a frame: the three association rounds with their bookkeeping. */
module Rounds {
  import opened Permutations
  import opened Tracks
  import opened TrackLists
  import opened Duplicates
  import opened LinearAssignment
  import opened Association

  /** How a round changes the set of tracks and detections with pairwise different sources. */
  ghost predicate Consumed(w: set<STrack>, w': set<STrack>, tracks: seq<STrack>, dets: seq<STrack>,
                           seen: set<STrack>, rest: seq<STrack>) {
    && seen <= w' <= w + seen && seen <= Members(tracks)
    && Members(rest) == Members(dets) * w' && Distinct(rest)
    && (forall d :: d in w && d !in dets ==> d in w')
  }

  /** The part rounds one and two share: distances, assignment, and the matched tracks. */
  method MatchAndUpdate(tracks: seq<STrack>, dets: seq<STrack>, thresh: real, frame: nat, ghost objects: seq<Object>,
                        ghost snap: Snapshot, ghost w: set<STrack>)
    returns (ok: bool, updated: seq<STrack>, refound: seq<STrack>, missed: seq<int>, rest: seq<STrack>,
             ghost w': set<STrack>, ghost m: Round)
    requires Distinct(tracks) && Distinct(dets)
    requires AsShot(snap, tracks) && AsShot(snap, dets)
    requires Members(dets) <= w && Members(tracks) !! w && Sourced(w, objects)
    modifies tracks
    ensures forall t :: t in tracks ==> t.trackId == old(t.trackId) && t.startFrameId == old(t.startFrameId)
    ensures Moderate(thresh) ==> ok
    ensures ok ==>
      && RoundOf(m, snap, tracks, dets, thresh, Members(updated) + Members(refound), rest)
      && Took(snap, m.given, Members(updated) + Members(refound))
      && (forall t :: t in updated ==> t in old(InState(tracks, Tracked)) && Refreshed(t, frame))
      && (forall t :: t in refound ==> t in tracks && t !in old(InState(tracks, Tracked)) && Refreshed(t, frame))
      && (forall t :: t in tracks && t !in updated && t !in refound ==> unchanged(t))
      && Within(missed, |tracks|) && Distinct(Pick(tracks, missed))
      && (forall t :: t in Pick(tracks, missed) <==> t in tracks && t !in updated && t !in refound)
      && Distinct(updated) && Distinct(refound)
      && Consumed(w, w', tracks, dets, Members(updated) + Members(refound), rest) && Sourced(w', objects)
  {
    ok, updated, refound, missed, rest, w' := false, [], [], [], [], w;
    var a;
    ghost var cost, fill, given;
    a, cost, fill := MatchTracks(tracks, dets, thresh);
    m := Round(a, cost, fill, map[]);
    if a.Threw? {
      return;
    }
    PartitionSplits(tracks, dets, a);
    DistancesShot(cost, snap, tracks, dets);
    hide Partitions, HitTracks, HitDetections, Sourced, Within, Distinct, Consumed, Given, BestPairs, Distances;
    updated, refound, w', given := Associate(tracks, dets, a.matches, frame, objects, w);
    m := Round(a, cost, fill, given);
    missed := a.aUnmatched;
    rest := Pick(dets, a.bUnmatched);
    ConsumedByMatches(w, w', tracks, dets, HitTracks(tracks, a.matches, |a.matches|),
                      HitDetections(dets, a.matches, |a.matches|),
                      Members(updated) + Members(refound), rest);
    assert Members(updated) + Members(refound) == HitTracks(tracks, a.matches, |a.matches|);
    ok := true;
  }

  lemma ConsumedByMatches(w: set<STrack>, w': set<STrack>, tracks: seq<STrack>, dets: seq<STrack>,
                          hit: set<STrack>, used: set<STrack>, seen: set<STrack>, rest: seq<STrack>)
    requires w' == w - used + hit && hit <= Members(tracks) && used <= Members(dets) <= w
    requires forall t :: t in seen <==> t in hit
    requires Members(dets) !! Members(tracks)
    requires Distinct(rest) && (forall d :: d in rest ==> d in dets) && forall d :: d in dets ==>
      (d in rest <==> d !in used)
    ensures Consumed(w, w', tracks, dets, seen, rest)
  {
  }

  /** Round one, lines 86 to 117 of BYTETracker.cpp: active and lost tracks against high-score detections. */
  method RoundOne(pool: seq<STrack>, dets: seq<STrack>, thresh: real, frame: nat, ghost objects: seq<Object>,
                  ghost snap: Snapshot, ghost w: set<STrack>)
    returns (ok: bool, current: seq<STrack>, refind: seq<STrack>, remainTracked: seq<STrack>, remainDets: seq<STrack>,
             ghost w': set<STrack>, ghost m: Round)
    requires Distinct(pool) && Distinct(dets)
    requires AsShot(snap, pool) && AsShot(snap, dets)
    requires Members(dets) <= w && Members(pool) !! w && Sourced(w, objects)
    modifies pool
    ensures forall t :: t in pool ==> t.trackId == old(t.trackId) && t.startFrameId == old(t.startFrameId)
    ensures Moderate(thresh) ==> ok
    ensures ok ==>
      && RoundOf(m, snap, pool, dets, thresh, Members(current) + Members(refind), remainDets)
      && Took(snap, m.given, Members(current) + Members(refind))
      && (forall t :: t in current ==> t in old(InState(pool, Tracked)) && Refreshed(t, frame))
      && (forall t :: t in refind ==> t in pool && t !in old(InState(pool, Tracked)) && Refreshed(t, frame))
      && (forall t :: t in pool && t !in current && t !in refind ==> unchanged(t))
      && (forall t :: t in remainTracked <==> t in old(InState(pool, Tracked)) && t !in current)
      && Distinct(current) && Distinct(refind) && Distinct(remainTracked)
      && Consumed(w, w', pool, dets, Members(current) + Members(refind), remainDets) && Sourced(w', objects)
  {
    var missed;
    ok, current, refind, missed, remainDets, w', m := MatchAndUpdate(pool, dets, thresh, frame, objects, snap, w);
    remainTracked := [];
    hide Sourced, Within, Distinct, Consumed, RoundOf, Distances;
    if ok {
      remainTracked := StillTracked(pool, missed);
    }
  }

  /** Lines 147 to 155 of BYTETracker.cpp. */
  method MarkAllLost(tracks: seq<STrack>, idx: seq<int>) returns (res: seq<STrack>)
    requires Within(idx, |tracks|) && Distinct(Pick(tracks, idx))
    requires forall t :: t in tracks ==> t.state != Lost
    modifies set t | t in Pick(tracks, idx) :: t`state
    ensures res == Pick(tracks, idx)
    ensures forall t :: t in res ==> t.state == Lost
  {
    res := [];
    ghost var p := Pick(tracks, idx);
    for k := 0 to |idx|
      invariant res == p[..k]
      invariant forall t :: t in res ==> t.state == Lost
      invariant forall t :: t in tracks && t !in res ==> t.state == old(t.state)
    {
      var track := tracks[idx[k]];
      assert p[k] == track && p[k] !in p[..k] && track in tracks && track in p;
      if track.state != Lost {
        track.MarkAsLost();
        res := res + [track];
      }
    }
    assert p[..|idx|] == p;
  }

  /** Round two, lines 127 to 155 of BYTETracker.cpp: the remaining active tracks against low-score detections; who
      is still unmatched is lost. All tracks are Tracked here, so the re-activation branch never runs. Half is a
      moderate limit, so the assignment does not throw. */
  method RoundTwo(tracks: seq<STrack>, lows: seq<STrack>, frame: nat, ghost objects: seq<Object>,
                  ghost snap: Snapshot, ghost w: set<STrack>)
    returns (current: seq<STrack>, refind: seq<STrack>, lost: seq<STrack>, ghost rest: seq<STrack>,
             ghost w': set<STrack>, ghost m: Round)
    requires Distinct(tracks) && Distinct(lows) && forall t :: t in tracks ==> t.state == Tracked
    requires AsShot(snap, tracks) && AsShot(snap, lows)
    requires Members(lows) <= w && Members(tracks) !! w && Sourced(w, objects)
    modifies tracks
    ensures forall t :: t in tracks ==> t.trackId == old(t.trackId) && t.startFrameId == old(t.startFrameId)
    ensures
      && refind == []
      && RoundOf(m, snap, tracks, lows, 0.5, Members(current), rest)
      && Took(snap, m.given, Members(current))
      && (forall t :: t in current ==> t in tracks && Refreshed(t, frame))
      && (forall t :: t in lost <==> t in tracks && t !in current)
      && (forall t :: t in lost ==> t.state == Lost && t.frameId == old(t.frameId) && t.activated == old(t.activated))
      && Distinct(current) && Distinct(lost)
      && Consumed(w, w', tracks, lows, Members(current), rest) && Sourced(w', objects)
  {
    var ok, missed;
    ok, current, refind, missed, rest, w', m := MatchAndUpdate(tracks, lows, 0.5, frame, objects, snap, w);
    assert ok;  // half is a moderate limit, so the solver does not throw
    hide Sourced, Within, Distinct, RoundOf, Distances, Consumed;
    NoMembers(refind);
    assert Members(current) + Members(refind) == Members(current);
    lost := MarkAllLost(tracks, missed);
  }

  lemma NoMembers(l: seq<STrack>)
    ensures (forall t :: t !in l) ==> l == []
  {
    if l != [] {
      assert l[0] in l;
    }
  }

  /** Lines 171 to 175 of BYTETracker.cpp: unconfirmed tracks that are matched are updated. */
  method Confirm(tracks: seq<STrack>, dets: seq<STrack>, matches: seq<(int, int)>, frame: nat,
                 ghost objects: seq<Object>, ghost w: set<STrack>)
    returns (updated: seq<STrack>, ghost w': set<STrack>, ghost given: map<STrack, STrack>)
    requires Pairing(matches, |tracks|, |dets|)
    requires Distinct(tracks) && Distinct(dets)
    requires Members(dets) <= w && Members(tracks) !! w && Sourced(w, objects)
    modifies tracks
    ensures forall t :: t in updated <==> t in HitTracks(tracks, matches, |matches|)
    ensures HitTracks(tracks, matches, |matches|) <= Members(tracks)
    ensures forall t :: t in updated ==>
      Refreshed(t, frame) && t in given && given[t] in dets && t.source == old(given[t].source)
    ensures given == Given(tracks, dets, matches, |matches|)
    ensures forall t :: t in tracks && t !in updated ==> unchanged(t)
    ensures forall t :: t in tracks ==> t.trackId == old(t.trackId) && t.startFrameId == old(t.startFrameId)
    ensures w' == w - HitDetections(dets, matches, |matches|) + HitTracks(tracks, matches, |matches|)
    ensures Distinct(updated) && Sourced(w', objects)
  {
    updated, w' := [], w;
    hide HitTracks, HitDetections, Sourced, Within, Given;
    HitNothing(tracks, dets, matches);
    given := map[];
    NothingGiven(tracks, dets, matches);
    for k := 0 to |matches|
      invariant HitTracks(tracks, matches, k) <= Members(tracks)
      invariant forall t :: t in updated <==> t in HitTracks(tracks, matches, k)
      invariant forall t :: t in updated ==>
        Refreshed(t, frame) && t in given && given[t] in dets && t.source == old(given[t].source)
      invariant given == Given(tracks, dets, matches, k)
      invariant forall t :: t in tracks && t !in updated ==> unchanged(t)
      invariant forall t :: t in tracks ==> t.trackId == old(t.trackId) && t.startFrameId == old(t.startFrameId)
      invariant w' == w - HitDetections(dets, matches, k) + HitTracks(tracks, matches, k) && Sourced(w', objects)
      invariant Distinct(updated)
    {
      NextMatchIsNew(tracks, dets, matches, k);
      var track, det := tracks[matches[k].0], dets[matches[k].1];
      assert track in tracks && det in dets && det in w' && track !in w';
      NextGiven(tracks, dets, matches, k);
      See(track, det, frame, objects, w');
      given := given[track := det];
      updated := updated + [track];
      w' := w' - {det} + {track};
    }
  }

  method See(track: STrack, det: STrack, frame: nat, ghost objects: seq<Object>, ghost w: set<STrack>)
    requires Sourced(w, objects) && det in w && track !in w
    modifies track
    ensures Sourced(w - {det} + {track}, objects)
    ensures Refreshed(track, frame)
    ensures track.trackId == old(track.trackId) && track.startFrameId == old(track.startFrameId)
    ensures track.source == old(det.source)
  {
    SourcesListed(w, objects);
    ghost var sources := Sources(w);
    track.Update(det, frame);
    SourceMoved(w, sources, det, track, objects);
  }

  /** Lines 177 to 182 of BYTETracker.cpp. */
  method MarkAllRemoved(tracks: seq<STrack>, idx: seq<int>) returns (res: seq<STrack>)
    requires Within(idx, |tracks|) && Distinct(Pick(tracks, idx))
    modifies set t | t in Pick(tracks, idx) :: t`state
    ensures res == Pick(tracks, idx)
    ensures forall t :: t in res ==> t.state == Removed
  {
    res := [];
    ghost var p := Pick(tracks, idx);
    for k := 0 to |idx|
      invariant res == p[..k]
      invariant forall t :: t in res ==> t.state == Removed
    {
      var track := tracks[idx[k]];
      assert p[k] == track && track in p;
      track.MarkAsRemoved();
      res := res + [track];
    }
    assert p[..|idx|] == p;
  }

  /** Detections that become tracks take themselves. */
  ghost function Own(born: seq<STrack>): map<STrack, STrack> {
    map d | d in born :: d
  }

  /** A track born in this frame under a new id. */
  ghost predicate Born(t: STrack, frame: nat)
    reads t
  {
    t.state == Tracked && t.frameId == t.startFrameId == frame && (t.activated <==> frame == 1)
  }

  /** Those among the first `end` detections of a list whose objects score high, in its order. */
  ghost function Strong(snap: Snapshot, objects: seq<Object>, highThresh: real, l: seq<STrack>, end: nat):
    (strong: seq<STrack>)
    requires end <= |l| && forall d :: d in l ==> d in snap && snap[d].source < |objects|
    ensures forall t :: t in strong ==> t in l[..end]
  {
    if end == 0 then []
    else
      assert l[end - 1] in l;
      Strong(snap, objects, highThresh, l, end - 1)
        + if objects[snap[l[end - 1]].source].prob >= highThresh then [l[end - 1]] else []
  }

  /** Exactly the left-over detections whose objects score high start tracks, in their order. */
  ghost predicate Starting(snap: Snapshot, objects: seq<Object>, highThresh: real, rest: seq<STrack>,
                           born: seq<STrack>)
  {
    && (forall d :: d in rest ==> d in snap && snap[d].source < |objects|)
    && born == Strong(snap, objects, highThresh, rest, |rest|)
  }

  lemma StartingNow(snap: Snapshot, objects: seq<Object>, dets: seq<STrack>, w: set<STrack>)
    requires Sourced(w, objects) && Members(dets) <= w
    requires forall d :: d in dets ==> d in snap && d.source == snap[d].source
    ensures forall d :: d in dets ==> d in snap && snap[d].source < |objects|
    ensures forall d :: d in dets ==> d.score == objects[snap[d].source].prob
  {
    assert forall d :: d in dets ==> d in Members(dets);
  }

  lemma {:induction false} StrongMembers(snap: Snapshot, objects: seq<Object>, highThresh: real, l: seq<STrack>,
                                         end: nat)
    requires end <= |l| && forall d :: d in l ==> d in snap && snap[d].source < |objects|
    ensures forall k :: 0 <= k < end ==>
      (l[k] in Strong(snap, objects, highThresh, l, end) <== objects[snap[l[k]].source].prob >= highThresh)
    ensures forall t :: t in Strong(snap, objects, highThresh, l, end) ==>
      t in l && objects[snap[t].source].prob >= highThresh
  {
    if end > 0 {
      StrongMembers(snap, objects, highThresh, l, end - 1);
      assert l[end - 1] in l;
    }
  }

  lemma {:induction false} StrongDistinct(snap: Snapshot, objects: seq<Object>, highThresh: real, l: seq<STrack>,
                                          end: nat)
    requires Distinct(l) && end <= |l| && forall d :: d in l ==> d in snap && snap[d].source < |objects|
    ensures Distinct(Strong(snap, objects, highThresh, l, end))
  {
    if end > 0 {
      StrongDistinct(snap, objects, highThresh, l, end - 1);
      assert l[end - 1] in l && l[end - 1] !in l[..end - 1];
    }
  }

  lemma StrongNext(snap: Snapshot, objects: seq<Object>, highThresh: real, l: seq<STrack>, k: nat)
    requires k < |l| && forall d :: d in l ==> d in snap && snap[d].source < |objects|
    ensures l[k] in l && Strong(snap, objects, highThresh, l, 0) == []
    ensures Strong(snap, objects, highThresh, l, k + 1) ==
      Strong(snap, objects, highThresh, l, k)
        + if objects[snap[l[k]].source].prob >= highThresh then [l[k]] else []
  {
    assert l[k] in l;
  }

  lemma OwnTook(snap: Snapshot, born: seq<STrack>)
    requires forall d :: d in born ==> d in snap && d.source == snap[d].source
    ensures Took(snap, Own(born), Members(born))
  {
  }

  /** After the first k detections: those of them with a high score are tracks, the others are as they were. */
  ghost predicate Started(snap: Snapshot, objects: seq<Object>, highThresh: real, dets: seq<STrack>, k: nat,
                          born: seq<STrack>, frame: nat, count: nat)
    reads dets, born
  {
    && k <= |dets| && (forall d :: d in dets ==> d in snap && snap[d].source < |objects|)
    && (forall d :: d in dets ==> d.source == snap[d].source && d.score == objects[snap[d].source].prob)
    && born == Strong(snap, objects, highThresh, dets, k)
    && (forall i :: 0 <= i < |born| ==> Born(born[i], frame) && born[i].trackId == count + 1 + i)
    && forall i :: k <= i < |dets| ==> Raw(dets[i])
  }

  /** One turn of the loop: a detection with a low score is passed over. */
  method StartOrSkip(dets: seq<STrack>, highThresh: real, frame: nat, count: nat, k: nat, born: seq<STrack>,
                     ghost objects: seq<Object>, ghost snap: Snapshot)
    returns (born': seq<STrack>)
    requires k < |dets| && Distinct(dets) && Started(snap, objects, highThresh, dets, k, born, frame, count)
    modifies set d | d in dets :: d`rect, set d | d in dets :: d`state, set d | d in dets :: d`activated
    modifies set d | d in dets :: d`trackId, set d | d in dets :: d`frameId, set d | d in dets :: d`startFrameId
    modifies set d | d in dets :: d`trackletLen
    ensures Started(snap, objects, highThresh, dets, k + 1, born', frame, count)
  {
    var track := dets[k];
    StrongNext(snap, objects, highThresh, dets, k);
    assert track !in dets[..k] && track in dets;
    hide Strong;
    if track.score < highThresh {
      return born;
    }
    track.Activate(frame, count + |born| + 1);
    return born + [track];
  }

  /** Lines 185 to 195 of BYTETracker.cpp: unmatched detections with a high score start tracks under the next free
      ids. */
  method StartTracks(dets: seq<STrack>, highThresh: real, frame: nat, count: nat,
                     ghost objects: seq<Object>, ghost snap: Snapshot, ghost w: set<STrack>)
    returns (born: seq<STrack>, count': nat)
    requires Distinct(dets) && Members(dets) <= w && Sourced(w, objects)
    requires forall d :: d in dets ==> Raw(d) && d in snap && d.source == snap[d].source
    modifies dets
    ensures forall t :: t in born <==> t in dets && t.score >= highThresh
    ensures forall t :: t in born ==> Born(t, frame)
    ensures count' == count + |born|
    ensures forall k :: 0 <= k < |born| ==> born[k].trackId == count + 1 + k
    ensures Distinct(born) && Sourced(w, objects)
    ensures Took(snap, Own(born), Members(born)) && Starting(snap, objects, highThresh, dets, born)
  {
    born := [];
    StartingNow(snap, objects, dets, w);
    assert Started(snap, objects, highThresh, dets, 0, born, frame, count);
    hide *;
    for k := 0 to |dets|
      invariant Started(snap, objects, highThresh, dets, k, born, frame, count) && Sourced(w, objects)
    {
      born := StartOrSkip(dets, highThresh, frame, count, k, born, objects, snap);
    }
    count' := count + |born|;
    BornAre(snap, objects, highThresh, dets, born, frame, count);
  }

  lemma BornAre(snap: Snapshot, objects: seq<Object>, highThresh: real, dets: seq<STrack>, born: seq<STrack>,
                frame: nat, count: nat)
    requires Started(snap, objects, highThresh, dets, |dets|, born, frame, count) && Distinct(dets)
    ensures forall t :: t in born <==> t in dets && t.score >= highThresh
    ensures forall t :: t in born ==> Born(t, frame)
    ensures forall k :: 0 <= k < |born| ==> born[k].trackId == count + 1 + k
    ensures Took(snap, Own(born), Members(born)) && Starting(snap, objects, highThresh, dets, born) && Distinct(born)
  {
    StrongDistinct(snap, objects, highThresh, dets, |dets|);
    StrongMembers(snap, objects, highThresh, dets, |dets|);
    OwnTook(snap, born);
  }

  /** Lines 166 to 175 of BYTETracker.cpp: distances, assignment, and the unconfirmed tracks that are matched. */
  method ConfirmMatched(tracks: seq<STrack>, dets: seq<STrack>, frame: nat, ghost objects: seq<Object>,
                        ghost snap: Snapshot, ghost w: set<STrack>)
    returns (confirmed: seq<STrack>, missed: seq<int>, rest: seq<STrack>, ghost w': set<STrack>, ghost m: Round)
    requires Distinct(tracks) && Distinct(dets)
    requires AsShot(snap, tracks) && AsShot(snap, dets)
    requires Members(dets) <= w && Members(tracks) !! w && Sourced(w, objects)
    modifies tracks
    ensures forall t :: t in tracks ==> t.trackId == old(t.trackId) && t.startFrameId == old(t.startFrameId)
    ensures
      && RoundOf(m, snap, tracks, dets, 0.7, Members(confirmed), rest)
      && Took(snap, m.given, Members(confirmed))
      && (forall t :: t in confirmed ==> t in tracks && Refreshed(t, frame))
      && (forall t :: t in tracks && t !in confirmed ==> unchanged(t))
      && Within(missed, |tracks|) && Distinct(Pick(tracks, missed))
      && (forall t :: t in Pick(tracks, missed) <==> t in tracks && t !in confirmed)
      && Distinct(confirmed)
      && Consumed(w, w', tracks, dets, Members(confirmed), rest) && Sourced(w', objects)
  {
    var a;
    ghost var cost, fill, given;
    a, cost, fill := MatchTracks(tracks, dets, 0.7);
    PartitionSplits(tracks, dets, a);
    DistancesShot(cost, snap, tracks, dets);
    hide Partitions, HitTracks, HitDetections, Sourced, Within, Distinct, Consumed, Given, BestPairs, Distances;
    confirmed, w', given := Confirm(tracks, dets, a.matches, frame, objects, w);
    m := Round(a, cost, fill, given);
    missed := a.aUnmatched;
    rest := Pick(dets, a.bUnmatched);
    ConsumedByMatches(w, w', tracks, dets, HitTracks(tracks, a.matches, |a.matches|),
                      HitDetections(dets, a.matches, |a.matches|),
                      Members(confirmed), rest);
    assert Members(confirmed) == HitTracks(tracks, a.matches, |a.matches|);
  }

  /** The part of round three that concerns the unconfirmed tracks, lines 166 to 182 of BYTETracker.cpp. */
  method ConfirmOrRemove(tracks: seq<STrack>, dets: seq<STrack>, frame: nat, ghost objects: seq<Object>,
                         ghost snap: Snapshot, ghost w: set<STrack>)
    returns (confirmed: seq<STrack>, removed: seq<STrack>, rest: seq<STrack>, ghost w': set<STrack>, ghost m: Round)
    requires Distinct(tracks) && Distinct(dets)
    requires AsShot(snap, tracks) && AsShot(snap, dets)
    requires Members(dets) <= w && Members(tracks) !! w && Sourced(w, objects)
    modifies tracks
    ensures forall t :: t in tracks ==> t.trackId == old(t.trackId) && t.startFrameId == old(t.startFrameId)
    ensures
      && RoundOf(m, snap, tracks, dets, 0.7, Members(confirmed), rest)
      && Took(snap, m.given, Members(confirmed))
      && (forall t :: t in confirmed ==> t in tracks && Refreshed(t, frame))
      && (forall t :: t in removed <==> t in tracks && t !in confirmed)
      && (forall t :: t in removed ==> t.state == Removed && t.frameId == old(t.frameId))
      && Distinct(confirmed)
      && Consumed(w, w', tracks, dets, Members(confirmed), rest) && Sourced(w', objects)
  {
    var missed;
    confirmed, missed, rest, w', m := ConfirmMatched(tracks, dets, frame, objects, snap, w);
    hide Sourced, Within, Distinct, RoundOf, Distances, Consumed;
    removed := MarkAllRemoved(tracks, missed);
  }

  lemma LeftOver(w: set<STrack>, w': set<STrack>, tracks: seq<STrack>, dets: seq<STrack>, seen: set<STrack>,
                 left: seq<STrack>)
    requires Consumed(w, w', tracks, dets, seen, left) && Members(dets) <= w && Members(tracks) !! w
    ensures Members(left) <= w' && Distinct(left) && forall k :: 0 <= k < |left| ==> left[k] in dets
    ensures forall d :: d in left ==> d in dets && d in w && d !in tracks
  {
    assert forall d :: d in left ==> d in Members(left);
    assert forall t :: t in tracks ==> t in Members(tracks);
    assert forall k :: 0 <= k < |left| ==> left[k] in left;
  }

  lemma MembersIn(l: seq<STrack>)
    ensures forall t :: t in Members(l) <==> t in l
  {
  }

  lemma SourcesShot(snap: Snapshot, dets: seq<STrack>, left: seq<STrack>)
    requires AsShot(snap, dets) && forall d :: d in left ==> d in dets
    ensures forall d :: d in left ==> d in snap && d.source == snap[d].source
  {
  }

  /** Round three, lines 159 to 196 of BYTETracker.cpp: unconfirmed tracks against the left-over high-score detections;
      who is unmatched is removed, and left-over detections of high score start new tracks. */
  method RoundThree(tracks: seq<STrack>, dets: seq<STrack>, highThresh: real, frame: nat, count: nat,
                    ghost objects: seq<Object>, ghost snap: Snapshot, ghost w: set<STrack>)
    returns (confirmed: seq<STrack>, removed: seq<STrack>, born: seq<STrack>, count': nat,
             ghost rest: seq<STrack>, ghost w': set<STrack>, ghost m: Round)
    requires Distinct(tracks) && Distinct(dets) && forall d :: d in dets ==> Raw(d)
    requires AsShot(snap, tracks) && AsShot(snap, dets)
    requires Members(dets) <= w && Members(tracks) !! w && Sourced(w, objects)
    modifies tracks, dets
    ensures forall t :: t in tracks ==> t.trackId == old(t.trackId) && t.startFrameId == old(t.startFrameId)
    ensures
      && RoundOf(m, snap, tracks, dets, 0.7, Members(confirmed), rest)
      && Took(snap, m.given, Members(confirmed))
      && (forall t :: t in confirmed ==> t in tracks && Refreshed(t, frame))
      && (forall t :: t in removed <==> t in tracks && t !in confirmed)
      && (forall t :: t in removed ==> t.state == Removed && t.frameId == old(t.frameId))
      && (forall t :: t in born <==> t in rest && t.score >= highThresh) && (forall t :: t in born ==> Born(t, frame))
      && count' == count + |born| && (forall k :: 0 <= k < |born| ==> born[k].trackId == count + 1 + k)
      && Took(snap, Own(born), Members(born)) && Starting(snap, objects, highThresh, rest, born)
      && Distinct(confirmed) && Distinct(born)
      && Consumed(w, w', tracks, dets, Members(confirmed), rest) && Sourced(w', objects)
  {
    var left;
    SourcesShot(snap, dets, dets);
    hide *;
    confirmed, removed, left, w', m := ConfirmOrRemove(tracks, dets, frame, objects, snap, w);
    rest := left;
    LeftOver(w, w', tracks, dets, Members(confirmed), left);
    MembersIn(confirmed);
    assert forall t :: t in tracks ==> t !in left;
    label Confirmed:
    born, count' := StartTracks(left, highThresh, frame, count, objects, snap, w');
    assert forall t :: t in tracks ==> unchanged@Confirmed(t);
    assert Took(snap, m.given, Members(confirmed));
  }
}
