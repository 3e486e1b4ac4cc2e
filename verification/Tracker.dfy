/** `BYTETracker`: the per-frame state machine over the tracked, lost and removed lists. */
module Tracker {
  import opened Permutations
  import opened Tracks
  import opened TrackLists
  import opened Duplicates
  import opened LinearAssignment
  import opened Rects
  import opened Association
  import opened Rounds

  /** Ids are handed out once, in 1..count. */
  ghost predicate Known(s: set<STrack>, count: nat)
    reads s
  {
    Unique(s) && forall t :: t in s ==> 1 <= t.trackId <= count
  }

  /** A tracked track was seen in this very frame, and is confirmed unless this is the frame of its birth. */
  ghost predicate InFrame(t: STrack, frame: nat)
    reads t
  {
    t.state == Tracked && t.frameId == frame && 1 <= t.startFrameId <= frame && (t.activated || t.startFrameId == frame)
  }

  /** A track from an earlier frame that was seen in this one. */
  ghost predicate SeenNow(t: STrack, frame: nat)
    reads t
  {
    InFrame(t, frame) && t.activated
  }

  ghost predicate AllInFrame(l: seq<STrack>, frame: nat)
    reads l
  {
    forall t :: t in l ==> InFrame(t, frame)
  }

  /** The lost tracks last seen too many frames ago. */
  ghost function Overdue(lost: seq<STrack>, snap: Snapshot, frame: nat, limit: nat): set<STrack> {
    set t | t in lost && t in snap && frame - snap[t].frame > limit
  }

  /** The frame a track was last seen in, by the record. */
  ghost function LastFrame(snap: Snapshot, t: STrack): nat {
    if t in snap then snap[t].frame else 0
  }

  /** What becomes of each track. Those seen in the frame go on. Of the others, the unconfirmed ones and the overdue
      ones are remembered as removed, for good; the confirmed and the lost ones wait, unless they were on the removed
      list before. De-duplication then only takes away. */
  ghost predicate Carried(confirmed: set<STrack>, unconfirmed: set<STrack>, lost: seq<STrack>, removed: seq<STrack>,
                          overdue: set<STrack>, all: seq<STrack>, allLost: seq<STrack>,
                          tracked': seq<STrack>, lost': seq<STrack>, removed': seq<STrack>) {
    && Members(removed') == Members(removed) + (unconfirmed + overdue - Members(all))
    && Members(allLost) == confirmed + Members(lost) - Members(all) - Members(removed)
    && Members(tracked') <= Members(all) && Members(lost') <= Members(allLost)
  }

  lemma CarriedSays(confirmed: set<STrack>, unconfirmed: set<STrack>, lost: seq<STrack>, removed: seq<STrack>,
                    overdue: set<STrack>, all: seq<STrack>, allLost: seq<STrack>,
                    tracked': seq<STrack>, lost': seq<STrack>, removed': seq<STrack>)
    requires Carried(confirmed, unconfirmed, lost, removed, overdue, all, allLost, tracked', lost', removed')
    ensures forall t :: t in removed' <==>
      t in removed || (t in unconfirmed && t !in all) || (t in overdue && t !in all)
    ensures forall t :: t in allLost <==> (t in confirmed || t in lost) && t !in all && t !in removed
    ensures (forall t :: t in tracked' ==> t in all) && (forall t :: t in lost' ==> t in allLost)
  {
    assert forall t :: t in removed' <==> t in Members(removed');
    assert forall t :: t in allLost <==> t in Members(allLost);
    assert forall t :: t in tracked' ==> t in Members(tracked');
    assert forall t :: t in lost' ==> t in Members(lost');
  }

  lemma CarriedOn(tracked: seq<STrack>, confirmed: set<STrack>, unconfirmed: set<STrack>, lost: seq<STrack>,
                  removed: seq<STrack>, overdue: set<STrack>, current: seq<STrack>, refind: seq<STrack>,
                  newLost: seq<STrack>, newRemoved: seq<STrack>, all: seq<STrack>, allLost: seq<STrack>,
                  tracked': seq<STrack>, lost': seq<STrack>, removed': seq<STrack>)
    requires Members(tracked) == confirmed + unconfirmed && confirmed !! unconfirmed && overdue <= Members(lost)
    requires Members(newLost) <= confirmed && Members(newRemoved) <= unconfirmed
    requires forall t :: t in tracked ==> t in current || t in newLost || t in newRemoved
    requires forall t :: t in newLost ==> t !in current && t !in refind
    requires forall t :: t in newRemoved ==> t !in current && t !in refind
    requires forall t :: t in tracked ==> t !in lost
    requires forall t :: t in lost ==> t !in current
    requires forall t :: t in refind ==> t in lost
    requires forall t :: t in all <==> t in current || t in refind
    requires forall t :: t in allLost <==> ((t in lost && t !in refind) || t in newLost) && t !in removed
    requires forall t :: t in removed' <==> t in removed || t in newRemoved || (t in overdue && t !in refind)
    requires (forall t :: t in tracked' ==> t in all) && (forall t :: t in lost' ==> t in allLost)
    ensures Carried(confirmed, unconfirmed, lost, removed, overdue, all, allLost, tracked', lost', removed')
  {
    forall t ensures t in Members(newRemoved) <==> t in unconfirmed - Members(all) {
      if t in unconfirmed - Members(all) {
        assert t in Members(tracked);
      }
    }
    forall t ensures t in Members(newLost) <==> t in confirmed - Members(all) {
      if t in confirmed - Members(all) {
        assert t in Members(tracked);
      }
    }
    assert forall t :: t in Members(lost) - Members(all) <==> t in lost && t !in refind;
  }

  /** How long a lost track may stay without being marked as removed. */
  function Patience(maxTimeLost: nat): nat {
    if maxTimeLost < 1 then 1 else maxTimeLost
  }

  /** A lost track was seen before this frame; it stays one frame longer than its patience, as a removed one. */
  ghost predicate Waiting(t: STrack, frame: nat, removed: seq<STrack>, patience: nat)
    reads t
  {
    && t.activated && 1 <= t.startFrameId <= t.frameId < frame
    && (t.state == Lost || t.state == Removed)
    && (t.state == Removed <==> t in removed)
    && frame - t.frameId <= patience + if t.state == Removed then 1 else 0
  }

  /** Seen in the last frame, missed in this one. */
  ghost predicate JustLost(t: STrack, frame: nat)
    reads t
  {
    t.state == Lost && t.activated && 1 <= t.startFrameId <= t.frameId && t.frameId == frame - 1
  }

  /** What the two rounds on confirmed and lost tracks did. */
  datatype ActivePlan = ActivePlan(pool: seq<STrack>, first: Round, firstHit: set<STrack>, remain: seq<STrack>,
                                   second: Round, secondHit: set<STrack>, secondRest: seq<STrack>)

  /** Confirmed and lost tracks were matched with the high-score detections, the confirmed ones left over with the
      low-score ones. */
  ghost predicate ActivePlanOf(p: ActivePlan, snap: Snapshot, active: seq<STrack>, lost: seq<STrack>, dets: seq<STrack>,
                               lows: seq<STrack>, matchThresh: real, hit: set<STrack>, rest: seq<STrack>) {
    && Distinct(p.pool) && Members(p.pool) == Members(active) + Members(lost)
    && RoundOf(p.first, snap, p.pool, dets, matchThresh, p.firstHit, rest)
    && Distinct(p.remain) && Members(p.remain) == Members(active) - p.firstHit
    && RoundOf(p.second, snap, p.remain, lows, 0.5, p.secondHit, p.secondRest)
    && hit == p.firstHit + p.secondHit
  }

  /** What all three rounds of a frame did: on which boxes, tracks and detections, who was seen in the end,
      and which detection each of them took. */
  datatype Plan = Plan(snap: Snapshot, took: map<STrack, STrack>,
                       active: seq<STrack>, lost: seq<STrack>, nonActive: seq<STrack>,
                       dets: seq<STrack>, lows: seq<STrack>,
                       activePlan: ActivePlan, activeHit: set<STrack>, rest: seq<STrack>,
                       third: Round, thirdHit: set<STrack>, thirdRest: seq<STrack>, born: seq<STrack>)

  /** The unconfirmed tracks were matched with what the first round left over, and what they left over started new
      tracks. */
  ghost predicate PlanOf(p: Plan, matchThresh: real, seen: set<STrack>) {
    && ActivePlanOf(p.activePlan, p.snap, p.active, p.lost, p.dets, p.lows, matchThresh, p.activeHit, p.rest)
    && Distinct(p.nonActive) && RoundOf(p.third, p.snap, p.nonActive, p.rest, 0.7, p.thirdHit, p.thirdRest)
    && Members(p.born) <= Members(p.thirdRest)
    && seen == p.activeHit + p.thirdHit + Members(p.born)
    && p.took == p.activePlan.first.given + p.activePlan.second.given + p.third.given + Own(p.born)
  }

  /** The detections, split by score, are the objects of the frame: each object is exactly one of them, with its box. */
  ghost predicate Detected(snap: Snapshot, dets: seq<STrack>, lows: seq<STrack>, objects: seq<Object>, thresh: real) {
    var all := Members(dets) + Members(lows);
    && Distinct(dets) && Distinct(lows)
    && (forall d :: d in all ==> d in snap && snap[d].source < |objects|)
    && (forall d :: d in all ==> snap[d].rect == objects[snap[d].source].rect)
    && (forall d :: d in dets ==> objects[snap[d].source].prob >= thresh)
    && (forall d :: d in lows ==> objects[snap[d].source].prob < thresh)
    && (forall d, e :: d in all && e in all && d != e ==> snap[d].source != snap[e].source)
    && (forall i :: 0 <= i < |objects| ==> DetectedAs(snap, all, i))
    && InOrder(snap, dets) && InOrder(snap, lows)
  }

  /** The detections come in the order of their objects. */
  ghost predicate InOrder(snap: Snapshot, dets: seq<STrack>) {
    && (forall d :: d in dets ==> d in snap)
    && forall i, j :: 0 <= i < j < |dets| ==> snap[dets[i]].source < snap[dets[j]].source
  }

  /** Boxes and objects recorded before are the same in the later record. */
  ghost predicate Continues(before: Snapshot, snap: Snapshot) {
    forall t :: t in before ==> t in snap && snap[t] == before[t]
  }

  ghost predicate DetectedAs(snap: Snapshot, all: set<STrack>, i: int) {
    exists d :: d in all && d in snap && snap[d].source == i
  }

  lemma {:induction false} GivenKeys(tracks: seq<STrack>, dets: seq<STrack>, matches: seq<(int, int)>, end: nat)
    requires Pairing(matches, |tracks|, |dets|) && end <= |matches|
    ensures Given(tracks, dets, matches, end).Keys == HitTracks(tracks, matches, end)
  {
    if end > 0 {
      GivenKeys(tracks, dets, matches, end - 1);
      assert Firsts(matches)[end - 1] == matches[end - 1].0 && Seconds(matches)[end - 1] == matches[end - 1].1;
    }
  }

  lemma RoundKeys(m: Round, snap: Snapshot, tracks: seq<STrack>, dets: seq<STrack>, thresh: real, hit: set<STrack>,
                  rest: seq<STrack>)
    requires RoundOf(m, snap, tracks, dets, thresh, hit, rest)
    ensures m.given.Keys == hit
  {
    GivenKeys(tracks, dets, m.a.matches, |m.a.matches|);
  }

  ghost predicate TookBy(snap: Snapshot, given: map<STrack, STrack>, s: set<STrack>, sources: map<STrack, nat>) {
    forall t :: t in s ==> t in sources && t in given && given[t] in snap && sources[t] == snap[given[t]].source
  }

  /** Exactly the tracks seen took a detection. */
  lemma {:induction false} SeenTook(p: Plan, matchThresh: real, seen: set<STrack>)
    requires PlanOf(p, matchThresh, seen)
    ensures p.took.Keys == seen
    ensures p.activePlan.first.given.Keys == p.activePlan.firstHit
    ensures p.activePlan.second.given.Keys == p.activePlan.secondHit
    ensures p.third.given.Keys == p.thirdHit
  {
    RoundKeys(p.activePlan.first, p.snap, p.activePlan.pool, p.dets, matchThresh, p.activePlan.firstHit, p.rest);
    RoundKeys(p.activePlan.second, p.snap, p.activePlan.remain, p.lows, 0.5, p.activePlan.secondHit,
      p.activePlan.secondRest);
    RoundKeys(p.third, p.snap, p.nonActive, p.rest, 0.7, p.thirdHit, p.thirdRest);
    hide RoundOf;
  }

  lemma TookJoined(snap: Snapshot, g: map<STrack, STrack>, s: set<STrack>, h: map<STrack, STrack>, r: set<STrack>)
    requires Took(snap, g, s) && Took(snap, h, r) && h.Keys == r
    ensures Took(snap, g + h, s + r)
  {
  }

  /** The frame went by the plan: its detections are the objects of the frame, its rounds matched them by the boxes
      recorded, and every track seen carries the object of the detection it took. */
  ghost predicate Followed(p: Plan, matchThresh: real, trackThresh: real, highThresh: real, objects: seq<Object>,
                           seen: set<STrack>)
    reads set t | t in seen :: t`source
  {
    && PlanOf(p, matchThresh, seen) && Took(p.snap, p.took, seen)
    && Detected(p.snap, p.dets, p.lows, objects, trackThresh)
    && Starting(p.snap, objects, highThresh, p.thirdRest, p.born)
  }

  lemma TookAll(p: Plan, matchThresh: real, trackThresh: real, highThresh: real, objects: seq<Object>,
                seen: set<STrack>)
    requires PlanOf(p, matchThresh, seen)
    requires Took(p.snap, p.activePlan.first.given, p.activePlan.firstHit)
    requires Took(p.snap, p.activePlan.second.given, p.activePlan.secondHit)
    requires Took(p.snap, p.third.given, p.thirdHit) && Took(p.snap, Own(p.born), Members(p.born))
    requires Detected(p.snap, p.dets, p.lows, objects, trackThresh)
    requires Starting(p.snap, objects, highThresh, p.thirdRest, p.born)
    ensures Followed(p, matchThresh, trackThresh, highThresh, objects, seen)
  {
    SeenTook(p, matchThresh, seen);
    var first, second := p.activePlan.first.given, p.activePlan.second.given;
    hide RoundOf, Took, Detected, Starting;
    TookJoined(p.snap, first, p.activePlan.firstHit, second, p.activePlan.secondHit);
    TookJoined(p.snap, first + second, p.activeHit, p.third.given, p.thirdHit);
    TookJoined(p.snap, first + second + p.third.given, p.activeHit + p.thirdHit, Own(p.born), Members(p.born));
  }

  /** No track takes a detection farther from it than the limit of its round; a new one starts at its detection. */
  lemma {:induction false} TookIsNear(p: Plan, matchThresh: real, seen: set<STrack>, t: STrack)
    requires PlanOf(p, matchThresh, seen) && Moderate(matchThresh) && t in seen
    requires t in p.took
    ensures
      || (t in p.born && p.took[t] == t)
      || (&& t in p.snap && p.took[t] in p.snap
          && var away := 1.0 - CalcIoU(p.snap[p.took[t]].rect, p.snap[t].rect);
          || (t in p.nonActive && away <= 0.7)
          || (t in p.active && p.took[t] in p.lows && away <= 0.5)
          || ((t in p.active || t in p.lost) && p.took[t] in p.dets && away <= matchThresh))
  {
    SeenTook(p, matchThresh, seen);
    var q := p.activePlan;
    if t in p.born {
    } else if t in p.third.given {
      GivenIsNear(p.third, p.snap, p.nonActive, p.rest, 0.7, p.thirdHit, p.thirdRest, t);
    } else if t in q.second.given {
      GivenIsNear(q.second, p.snap, q.remain, p.lows, 0.5, q.secondHit, q.secondRest, t);
      assert t in Members(q.remain);
    } else {
      GivenIsNear(q.first, p.snap, q.pool, p.dets, matchThresh, q.firstHit, p.rest, t);
      assert t in Members(q.pool);
    }
  }

  lemma PickInOrder(snap: Snapshot, l: seq<STrack>, idx: seq<int>)
    requires InOrder(snap, l) && AscendingBelow(idx, |l|)
    ensures Within(idx, |l|) && InOrder(snap, Pick(l, idx))
  {
    assert forall k :: 0 <= k < |idx| ==> l[idx[k]] in l;
  }

  lemma {:induction false} StrongInOrder(snap: Snapshot, objects: seq<Object>, highThresh: real, l: seq<STrack>,
                                         end: nat)
    requires end <= |l| && InOrder(snap, l) && forall d :: d in l ==> snap[d].source < |objects|
    ensures InOrder(snap, Strong(snap, objects, highThresh, l, end))
    ensures forall d :: d in Strong(snap, objects, highThresh, l, end) ==>
      exists k :: 0 <= k < end && l[k] == d
  {
    if end > 0 {
      StrongInOrder(snap, objects, highThresh, l, end - 1);
      var before := Strong(snap, objects, highThresh, l, end - 1);
      assert l[end - 1] in l;
      forall i | 0 <= i < |before| ensures snap[before[i]].source < snap[l[end - 1]].source {
        assert before[i] in before;
        var k :| 0 <= k < end - 1 && l[k] == before[i];
      }
    }
  }

  /** The tracks born in a frame come in the order of their objects, and so do their ids. */
  lemma BornInOrder(p: Plan, matchThresh: real, trackThresh: real, highThresh: real, objects: seq<Object>,
                    seen: set<STrack>)
    requires PlanOf(p, matchThresh, seen) && Detected(p.snap, p.dets, p.lows, objects, trackThresh)
    requires Starting(p.snap, objects, highThresh, p.thirdRest, p.born)
    ensures InOrder(p.snap, p.born)
  {
    hide InOrder, Strong, IsPermutation, BestPairs, DistancesIn, DetectedAs;
    PickInOrder(p.snap, p.dets, p.activePlan.first.a.bUnmatched);
    PickInOrder(p.snap, p.rest, p.third.a.bUnmatched);
    StrongInOrder(p.snap, objects, highThresh, p.thirdRest, |p.thirdRest|);
  }

  /** The tracks have the ids that follow on a count, in their order. */
  ghost predicate IdsFrom(l: seq<STrack>, count: nat)
    reads set t | t in l :: t`trackId
  {
    forall k :: 0 <= k < |l| ==> l[k] in l && l[k].trackId == count + 1 + k
  }

  /** The confirmed tracks of a list, in its order. */
  ghost function Confirmed(l: seq<STrack>): seq<STrack>
    reads l
  {
    if l == [] then []
    else
      var last := l[|l| - 1];
      Confirmed(l[..|l| - 1]) + if last.activated then [last] else []
  }

  lemma {:induction false} ConfirmedMembers(l: seq<STrack>)
    ensures |Confirmed(l)| <= |l| && forall t :: t in Confirmed(l) <==> t in l && t.activated
    ensures Distinct(l) ==> Distinct(Confirmed(l))
  {
    if l != [] {
      var n := |l| - 1;
      ConfirmedMembers(l[..n]);
      assert l == l[..n] + [l[n]];
    }
  }

  class BYTETracker {
    const trackThresh: real
    const highThresh: real
    const matchThresh: real
    const maxTimeLost: nat

    var frameId: nat
    var trackIdCount: nat
    var tracked: seq<STrack>
    var lost: seq<STrack>
    var removed: seq<STrack>

    /** What every run of frames keeps. */
    ghost predicate Valid()
      reads this, tracked, lost, removed
    {
      ValidAt(frameId)
    }

    ghost predicate ValidAt(frame: nat)
      reads this, tracked, lost, removed
    {
      && Known(Members(tracked + lost + removed), trackIdCount)
      && Distinct(tracked) && Distinct(lost) && (forall t :: t in tracked ==> t !in lost)
      && (forall t :: t in tracked ==> InFrame(t, frame))
      && (forall t :: t in lost ==> Waiting(t, frame, removed, Patience(maxTimeLost)))
    }

    constructor (frameRate: nat, trackBuffer: nat, trackThresh: real, highThresh: real, matchThresh: real)
      ensures Valid() && frameId == 0 && tracked == lost == removed == []
      ensures this.trackThresh == trackThresh && this.highThresh == highThresh && this.matchThresh == matchThresh
      ensures maxTimeLost == frameRate * trackBuffer / 30
    {
      this.trackThresh, this.highThresh, this.matchThresh := trackThresh, highThresh, matchThresh;
      this.maxTimeLost := frameRate * trackBuffer / 30;
      frameId, trackIdCount := 0, 0;
      tracked, lost, removed := [], [], [];
    }

    /** A lost track that the frame has not touched. */
    ghost predicate StillLost(t: STrack, snap: Snapshot)
      reads this`frameId, this`removed, t
    {
      && frameId >= 1 && Waiting(t, frameId - 1, removed, Patience(maxTimeLost))
      && t in snap && t.frameId == snap[t].frame
    }

    /** What the three rounds leave for the list update: the lists are still those of the last frame. */
    ghost predicate Staged(count: nat, known: set<STrack>, current: seq<STrack>, refind: seq<STrack>,
                           newLost: seq<STrack>, newRemoved: seq<STrack>, objects: seq<Object>, snap: Snapshot,
                           w: set<STrack>)
      reads this`frameId, this`tracked, this`lost, this`removed, known, current, refind, lost, newLost, w
    {
      && frameId >= 1 && Known(known, count)
      && (forall t :: t in tracked ==> t in known) && (forall t :: t in lost ==> t in known)
      && (forall t :: t in removed ==> t in known) && (forall t :: t in current ==> t in known)
      && Distinct(current) && Distinct(refind) && Distinct(newLost) && Distinct(lost)
      && (forall t :: t in current ==> InFrame(t, frameId) && t !in lost && t in w)
      && (forall t :: t in current ==> (t.activated <==> t in tracked || frameId == 1))
      && (forall t :: t in refind ==> SeenNow(t, frameId) && t in lost && t in w)
      && (forall t :: t in lost && t !in refind ==> StillLost(t, snap))
      && (forall t :: t in newLost ==> t in tracked && t !in lost && t !in current && JustLost(t, frameId))
      && (forall t :: t in newRemoved ==> t in tracked && t !in lost && t !in current && t !in newLost)
      && Sourced(w, objects)
    }

    /** Nobody is lost sight of: every track goes on, is lost or is removed, and every confident detection is used. */
    ghost predicate Complete(current: seq<STrack>, refind: seq<STrack>, newLost: seq<STrack>, newRemoved: seq<STrack>,
                             w: set<STrack>)
      reads this`tracked, set t | t in w :: t`score
    {
      && (forall t :: t in tracked ==> t in current || t in newLost || t in newRemoved)
      && (forall t :: t in w ==> t in current || t in refind || t.score < trackThresh || t.score < highThresh)
    }

    /** The same after rounds one and two, with the unconfirmed tracks and the left-over detections still open. */
    ghost predicate HalfComplete(current: seq<STrack>, refind: seq<STrack>, newLost: seq<STrack>,
                                 nonActive: seq<STrack>,
                                 dets: seq<STrack>, w: set<STrack>)
      reads this`tracked, set t | t in w :: t`score
    {
      && (forall t :: t in tracked ==> t in current || t in newLost || t in nonActive)
      && (forall t :: t in w ==> t in current || t in refind || t in dets || t.score < trackThresh)
    }

    /** The tracked tracks that are confirmed, or those that are not. */
    ghost function WithActivated(activated: bool): set<STrack>
      reads this`tracked, tracked
    {
      set t | t in tracked && t.activated == activated
    }

    /** Who is tracked or lost, with box, object and the frame last seen in. */
    ghost function Record(): Snapshot
      reads this`tracked, this`lost, tracked, lost
    {
      Shot(tracked + lost)
    }

    /** Lines 56 to 66 of BYTETracker.cpp. */
    method SplitTracked() returns (active: seq<STrack>, nonActive: seq<STrack>)
      requires Distinct(tracked)
      ensures Distinct(active) && Distinct(nonActive)
      ensures forall t :: t in active <==> t in tracked && t.activated
      ensures forall t :: t in nonActive <==> t in tracked && !t.activated
    {
      active, nonActive := [], [];
      for i := 0 to |tracked|
        invariant Distinct(active) && Distinct(nonActive)
        invariant forall t :: t in active <==> t in tracked[..i] && t.activated
        invariant forall t :: t in nonActive <==> t in tracked[..i] && !t.activated
      {
        assert tracked[..i + 1] == tracked[..i] + [tracked[i]] && tracked[i] !in tracked[..i];
        if !tracked[i].activated {
          nonActive := nonActive + [tracked[i]];
        } else {
          active := active + [tracked[i]];
        }
      }
      assert tracked[..|tracked|] == tracked;
    }

    /** Line 68 of BYTETracker.cpp: confirmed and lost tracks together. */
    method Pool(active: seq<STrack>, ghost w: set<STrack>) returns (pool: seq<STrack>)
      requires Unique(Members(active + lost)) && Distinct(active) && Members(active) !! w && Members(lost) !! w
      requires forall t :: t in active ==> t !in lost
      ensures Distinct(pool) && Members(pool) == Members(active) + Members(lost) && Members(pool) !! w
      ensures forall t :: t in pool <==> t in active || t in lost
    {
      pool := JointStracks(active, lost);
    }

    lemma PartShot(snap: Snapshot, l: seq<STrack>, part: seq<STrack>)
      requires AsShot(snap, l) && forall t :: t in part ==> t in l
      ensures AsShot(snap, part)
    {
    }

    lemma TakenShot(snap: Snapshot, l: seq<STrack>)
      requires forall t :: t in l ==> t in snap && snap[t] == Seen(t.rect, t.source, t.frameId)
      ensures AsShot(snap, l)
    {
    }

    lemma RefreshedInFrame(t: STrack, frame: nat)
      requires Refreshed(t, frame) && 1 <= t.startFrameId <= frame
      ensures SeenNow(t, frame)
    {
    }

    lemma PoolShot(snap: Snapshot, active: seq<STrack>, lost: seq<STrack>, pool: seq<STrack>)
      requires AsShot(snap, active) && AsShot(snap, lost) && forall t :: t in pool ==> t in active || t in lost
      ensures AsShot(snap, pool)
    {
    }

    /** The pool and its round. */
    method PoolRound(active: seq<STrack>, dets: seq<STrack>, ghost objects: seq<Object>, ghost snap: Snapshot,
                     ghost w: set<STrack>)
      returns (ok: bool, current: seq<STrack>, refind: seq<STrack>, remainTracked: seq<STrack>, remainDets: seq<STrack>,
               ghost w': set<STrack>, ghost pool: seq<STrack>, ghost m: Round)
      requires frameId >= 1 && Unique(Members(active + lost))
      requires Distinct(active) && Distinct(lost) && forall t :: t in active ==> t !in lost
      requires (forall t :: t in active ==> t.state == Tracked) && forall t :: t in lost ==> t.state != Tracked
      requires Distinct(dets) && Members(dets) <= w && Members(active) !! w && Members(lost) !! w && Sourced(w, objects)
      requires AsShot(snap, active) && AsShot(snap, lost) && AsShot(snap, dets)
      modifies active, lost
      ensures forall t :: t in active || t in lost ==>
        t.trackId == old(t.trackId) && t.startFrameId == old(t.startFrameId)
      ensures Moderate(matchThresh) ==> ok
      ensures ok ==>
        && Distinct(current) && Distinct(refind) && Distinct(remainTracked)
        && (forall t :: t in current ==> t in active && Refreshed(t, frameId))
        && (forall t :: t in refind ==> t in lost && Refreshed(t, frameId))
        && (forall t :: t in active && t !in current ==> unchanged(t))
        && (forall t :: t in lost && t !in refind ==> unchanged(t))
        && (forall t :: t in remainTracked <==> t in active && t !in current)
        && Consumed(w, w', pool, dets, Members(current) + Members(refind), remainDets) && Sourced(w', objects)
        && Took(snap, m.given, Members(current) + Members(refind))
        && Distinct(pool) && Members(pool) == Members(active) + Members(lost)
        && RoundOf(m, snap, pool, dets, matchThresh, Members(current) + Members(refind), remainDets)
    {
      var strackPool := Pool(active, w);
      pool := strackPool;
      assert forall k :: 0 <= k < |pool| ==> pool[k] in pool;
      PoolShot(snap, active, lost, pool);
      ghost var was := InState(pool, Tracked);
      assert forall t :: t in was <==> t in active;
      hide *;
      ok, current, refind, remainTracked, remainDets, w', m :=
        RoundOne(strackPool, dets, matchThresh, frameId, objects, snap, w);
    }

    /** Round one as it leaves the tracks. */
    method MatchPool(active: seq<STrack>, dets: seq<STrack>, ghost objects: seq<Object>, ghost snap: Snapshot,
                     ghost w: set<STrack>)
      returns (ok: bool, current: seq<STrack>, refind: seq<STrack>, remainTracked: seq<STrack>, remainDets: seq<STrack>,
               ghost w': set<STrack>, ghost pool: seq<STrack>, ghost m: Round)
      requires frameId >= 1 && Unique(Members(active + lost))
      requires Distinct(active) && Distinct(lost) && forall t :: t in active ==> t !in lost
      requires forall t :: t in active ==> InFrame(t, frameId - 1) && t.activated
      requires forall t :: t in lost ==> StillLost(t, snap)
      requires Distinct(dets) && Members(dets) <= w && Members(active) !! w && Members(lost) !! w && Sourced(w, objects)
      requires AsShot(snap, active) && AsShot(snap, lost) && AsShot(snap, dets)
      modifies active, lost
      ensures forall t :: t in active || t in lost ==> t.trackId == old(t.trackId)
      ensures Moderate(matchThresh) ==> ok
      ensures ok ==>
        && Distinct(current) && Distinct(refind) && Distinct(remainTracked)
        && (forall t :: t in current ==> t in active && SeenNow(t, frameId))
        && (forall t :: t in refind ==> t in lost && SeenNow(t, frameId))
        && (forall t :: t in lost && t !in refind ==> StillLost(t, snap))
        && (forall t :: t in remainTracked <==> t in active && t !in current)
        && (forall t :: t in remainTracked ==> InFrame(t, frameId - 1) && t.activated)
        && Consumed(w, w', pool, dets, Members(current) + Members(refind), remainDets) && Sourced(w', objects)
        && AsShot(snap, remainTracked) && Took(snap, m.given, Members(current) + Members(refind))
        && Distinct(pool) && Members(pool) == Members(active) + Members(lost)
        && RoundOf(m, snap, pool, dets, matchThresh, Members(current) + Members(refind), remainDets)
    {
      assert forall t :: t in active ==> t in snap && snap[t] == Seen(t.rect, t.source, t.frameId);
      assert forall t :: t in active || t in lost ==> 1 <= t.startFrameId <= frameId;
      hide *;
      ok, current, refind, remainTracked, remainDets, w', pool, m := PoolRound(active, dets, objects, snap, w);
      if ok {
        forall t | t in current ensures t in active && SeenNow(t, frameId) {
          RefreshedInFrame(t, frameId);
        }
        forall t | t in refind ensures t in lost && SeenNow(t, frameId) {
          RefreshedInFrame(t, frameId);
        }
        forall t | t in lost && t !in refind ensures StillLost(t, snap) {
          assert unchanged(t) && old(StillLost(t, snap));
        }
        forall t | t in remainTracked ensures InFrame(t, frameId - 1) && t.activated {
          assert unchanged(t) && old(InFrame(t, frameId - 1));
        }
        TakenShot(snap, remainTracked);
      }
    }

    /** Round one on the confirmed and the lost tracks, lines 68 to 118 of BYTETracker.cpp. */
    method FirstRound(active: seq<STrack>, dets: seq<STrack>, ghost objects: seq<Object>, ghost snap: Snapshot,
                      ghost w: set<STrack>)
      returns (ok: bool, current: seq<STrack>, refind: seq<STrack>, remainTracked: seq<STrack>, remainDets: seq<STrack>,
               ghost w': set<STrack>, ghost pool: seq<STrack>, ghost m: Round)
      requires frameId >= 1 && Unique(Members(active + lost))
      requires Distinct(active) && Distinct(lost) && forall t :: t in active ==> t !in lost
      requires forall t :: t in active ==> InFrame(t, frameId - 1) && t.activated
      requires forall t :: t in lost ==> StillLost(t, snap)
      requires Distinct(dets) && Members(dets) <= w && Members(active) !! w && Members(lost) !! w && Sourced(w, objects)
      requires AsShot(snap, active) && AsShot(snap, lost) && AsShot(snap, dets)
      modifies active, lost
      ensures forall t :: t in active || t in lost ==> t.trackId == old(t.trackId)
      ensures Moderate(matchThresh) ==> ok
      ensures ok ==>
        && Distinct(current) && Distinct(refind) && Distinct(remainTracked) && Distinct(remainDets)
        && (forall t :: t in current ==> t in active && SeenNow(t, frameId) && t in w')
        && (forall t :: t in refind ==> t in lost && SeenNow(t, frameId) && t in w')
        && (forall t :: t in lost && t !in refind ==> StillLost(t, snap))
        && (forall t :: t in remainTracked <==> t in active && t !in current)
        && (forall t :: t in remainTracked ==> InFrame(t, frameId - 1) && t.activated && t !in w')
        && (forall d :: d in remainDets ==> d in dets && d in w')
        && (forall d :: d in w && d !in dets ==> d in w')
        && (forall t :: t in w' ==> t in current || t in refind || t in remainDets || (t in w && t !in dets))
        && w' <= w + Members(active) + Members(lost) && Sourced(w', objects)
        && AsShot(snap, remainTracked) && Took(snap, m.given, Members(current) + Members(refind))
        && Distinct(pool) && Members(pool) == Members(active) + Members(lost)
        && RoundOf(m, snap, pool, dets, matchThresh, Members(current) + Members(refind), remainDets)
    {
      hide *;
      ok, current, refind, remainTracked, remainDets, w', pool, m := MatchPool(active, dets, objects, snap, w);
      if ok {
        ConsumedFacts(w, w', pool, dets, Members(current) + Members(refind), remainDets);
        SeenAndMissed(w, w', active, lost, current, refind, remainTracked);
      }
    }

    lemma SeenAndMissed(w: set<STrack>, w': set<STrack>, active: seq<STrack>, lost: seq<STrack>,
                        current: seq<STrack>, refind: seq<STrack>, remain: seq<STrack>)
      requires Members(current) + Members(refind) <= w'
      requires (forall t :: t in w' ==> t in Members(current) + Members(refind) || t in w)
      requires Members(active) !! w && (forall t :: t in active ==> t !in lost)
      requires (forall t :: t in refind ==> t in lost)
      requires forall t :: t in remain <==> t in active && t !in current
      ensures (forall t :: t in current || t in refind ==> t in w') && (forall t :: t in remain ==> t !in w')
      ensures forall t :: t in Members(current) + Members(refind) <==> t in current || t in refind
    {
      assert forall t :: t in current ==> t in Members(current);
      assert forall t :: t in refind ==> t in Members(refind);
      assert forall t :: t in active ==> t in Members(active);
    }

    /** Round two on the confirmed tracks left over, lines 121 to 156 of BYTETracker.cpp. */
    method SecondRound(tracks: seq<STrack>, lows: seq<STrack>, ghost objects: seq<Object>, ghost snap: Snapshot,
                       ghost w: set<STrack>)
      returns (current: seq<STrack>, refind: seq<STrack>, newLost: seq<STrack>, ghost w': set<STrack>,
               ghost rest: seq<STrack>, ghost m: Round)
      requires frameId >= 1 && Distinct(tracks) && Distinct(lows)
      requires forall t :: t in tracks ==> InFrame(t, frameId - 1) && t.activated
      requires Members(lows) <= w && Members(tracks) !! w && Sourced(w, objects)
      requires AsShot(snap, tracks) && AsShot(snap, lows)
      modifies tracks
      ensures forall t :: t in tracks ==> t.trackId == old(t.trackId)
      ensures
        && refind == [] && Distinct(current) && Distinct(newLost)
        && (forall t :: t in current ==> t in tracks && SeenNow(t, frameId) && t in w')
        && (forall t :: t in newLost ==> t in tracks && t !in current && JustLost(t, frameId))
        && (forall t :: t in tracks ==> t in current || t in newLost)
        && (forall d :: d in w && d !in lows ==> d in w')
        && (forall t :: t in w' ==> t in current || t in w)
        && w' <= w + Members(tracks) && Sourced(w', objects)
        && Took(snap, m.given, Members(current))
        && RoundOf(m, snap, tracks, lows, 0.5, Members(current), rest)
    {
      hide Sourced, RoundOf, Distances, Consumed, Took, AsShot;
      current, refind, newLost, rest, w', m := RoundTwo(tracks, lows, frameId, objects, snap, w);
      ConsumedFacts(w, w', tracks, lows, Members(current), rest);
    }

    /** Rounds one and two together. */
    method ActiveRounds(active: seq<STrack>, dets: seq<STrack>, lows: seq<STrack>, ghost objects: seq<Object>,
                        ghost snap: Snapshot, ghost w: set<STrack>)
      returns (ok: bool, current: seq<STrack>, refind: seq<STrack>, newLost: seq<STrack>, remainDets: seq<STrack>,
               ghost w': set<STrack>, ghost p: ActivePlan)
      requires frameId >= 1 && Unique(Members(active + lost))
      requires Distinct(active) && Distinct(lost) && forall t :: t in active ==> t !in lost
      requires forall t :: t in active ==> InFrame(t, frameId - 1) && t.activated
      requires forall t :: t in lost ==> StillLost(t, snap)
      requires Distinct(dets) && Distinct(lows) && Members(dets) !! Members(lows) && Members(dets) + Members(lows) <= w
      requires Members(active) !! w && Members(lost) !! w && Sourced(w, objects)
      requires AsShot(snap, active) && AsShot(snap, lost) && AsShot(snap, dets) && AsShot(snap, lows)
      modifies active, lost
      ensures forall t :: t in active || t in lost ==> t.trackId == old(t.trackId)
      ensures Moderate(matchThresh) ==> ok
      ensures ok ==>
        && Distinct(current) && Distinct(refind) && Distinct(newLost) && Distinct(remainDets)
        && (forall t :: t in current ==> t in active && SeenNow(t, frameId) && t in w')
        && (forall t :: t in refind ==> t in lost && SeenNow(t, frameId) && t in w')
        && (forall t :: t in lost && t !in refind ==> StillLost(t, snap))
        && (forall t :: t in newLost ==> t in active && t !in current && JustLost(t, frameId))
        && (forall t :: t in active ==> t in current || t in newLost)
        && (forall t :: t in w' ==> t in current || t in refind || t in remainDets || (t in w && t !in dets))
        && (forall d :: d in remainDets ==> d in dets && d in w')
        && w' <= w + Members(active) + Members(lost) && Sourced(w', objects)
        && Took(snap, p.first.given, p.firstHit) && Took(snap, p.second.given, p.secondHit)
        && ActivePlanOf(p, snap, active, lost, dets, lows, matchThresh, Members(current) + Members(refind), remainDets)
    {
      hide *;
      var remainTracked;
      ghost var pool, first, second, secondRest;
      Apart(lows, active, lost, w);
      ok, current, refind, remainTracked, remainDets, w', pool, first := FirstRound(active, dets, objects, snap, w);
      newLost := [];
      p := ActivePlan(pool, first, {}, [], first, {}, []);
      if !ok {
        return;
      }
      ghost var firstHit := Members(current) + Members(refind);
      assert Took(snap, first.given, firstHit);
      RemainingMembers(active, lost, current, refind, remainTracked);
      BeforeSecond(w, w', active, dets, lows, remainTracked);
      ghost var w1 := w';
      assert forall t :: t in firstHit ==> t !in remainTracked;
      var current2, refind2;
      current2, refind2, newLost, w', secondRest, second := SecondRound(remainTracked, lows, objects, snap, w1);
      assert Took(snap, first.given, firstHit);
      assert Took(snap, second.given, Members(current2));
      p := ActivePlan(pool, first, firstHit, remainTracked, second, Members(current2), secondRest);
      ActivePlanMade(p, snap, active, lost, dets, lows, current, current2, refind, refind2, remainDets);
      DistinctConcat(current, current2);
      AfterSecond(w, w1, w', active, lost, dets, lows, current, refind, remainTracked, remainDets);
      assert refind + refind2 == refind;
      current, refind := current + current2, refind + refind2;
    }

    lemma Apart(l: seq<STrack>, a: seq<STrack>, b: seq<STrack>, w: set<STrack>)
      requires Members(l) <= w && Members(a) !! w && Members(b) !! w
      ensures forall k :: 0 <= k < |l| ==> l[k] !in a && l[k] !in b
    {
      assert forall k :: 0 <= k < |l| ==> l[k] in Members(l);
      assert forall t :: t in a ==> t in Members(a);
      assert forall t :: t in b ==> t in Members(b);
    }

    lemma BeforeSecond(w: set<STrack>, w': set<STrack>, active: seq<STrack>, dets: seq<STrack>, lows: seq<STrack>,
                       remain: seq<STrack>)
      requires Members(dets) !! Members(lows) && Members(dets) + Members(lows) <= w
      requires (forall d :: d in w && d !in dets ==> d in w') && forall t :: t in remain ==> t !in w' && t in active
      ensures Members(remain) !! w' && Members(lows) <= w' && forall k :: 0 <= k < |remain| ==> remain[k] in active
    {
      assert forall d :: d in Members(lows) ==> d !in Members(dets);
      assert forall d :: d in dets ==> d in Members(dets);
    }

    lemma AfterSecond(w: set<STrack>, w1: set<STrack>, w': set<STrack>, active: seq<STrack>, lost: seq<STrack>,
                      dets: seq<STrack>, lows: seq<STrack>, current: seq<STrack>, refind: seq<STrack>,
                      remain: seq<STrack>, rest: seq<STrack>)
      requires Members(dets) !! Members(lows) && w1 <= w + Members(active) + Members(lost) && w' <= w1 + Members(remain)
      requires Members(lows) <= w && Members(active) !! w && Members(lost) !! w
      requires (forall d :: d in w1 && d !in lows ==> d in w') && (forall t :: t in remain ==> t in active)
      requires (forall t :: t in current ==> t in active && t in w1)
      requires (forall t :: t in refind ==> t in lost && t in w1)
      requires forall d :: d in rest ==> d in dets && d in w1
      ensures w' <= w + Members(active) + Members(lost) && forall d :: d in rest ==> d in w'
      ensures forall t :: t in current || t in refind ==> t in w'
    {
      assert forall t :: t in active ==> t in Members(active);
      assert forall t :: t in lost ==> t in Members(lost);
      assert forall d :: d in dets ==> d in Members(dets);
      assert forall d :: d in lows ==> d in Members(lows);
    }

    lemma ActivePlanMade(p: ActivePlan, snap: Snapshot, active: seq<STrack>, lost: seq<STrack>, dets: seq<STrack>,
                         lows: seq<STrack>,
                         current: seq<STrack>, current2: seq<STrack>, refind: seq<STrack>, refind2: seq<STrack>,
                         rest: seq<STrack>)
      requires Distinct(p.pool) && Distinct(p.remain) && Members(p.pool) == Members(active) + Members(lost)
      requires RoundOf(p.first, snap, p.pool, dets, matchThresh, p.firstHit, rest)
      requires Members(p.remain) == Members(active) - p.firstHit
      requires RoundOf(p.second, snap, p.remain, lows, 0.5, p.secondHit, p.secondRest)
      requires p.firstHit == Members(current) + Members(refind) && p.secondHit == Members(current2) && refind2 == []
      ensures ActivePlanOf(p, snap, active, lost, dets, lows, matchThresh,
                           Members(current + current2) + Members(refind + refind2), rest)
    {
      MembersConcat(current, current2);
      MembersConcat(refind, refind2);
    }

    lemma RemainingMembers(active: seq<STrack>, lost: seq<STrack>, current: seq<STrack>, refind: seq<STrack>,
                           remain: seq<STrack>)
      requires forall t :: t in remain <==> t in active && t !in current
      requires (forall t :: t in refind ==> t in lost) && (forall t :: t in active ==> t !in lost)
      ensures Members(remain) == Members(active) - (Members(current) + Members(refind))
      ensures forall k :: 0 <= k < |remain| ==> remain[k] !in Members(current) + Members(refind)
    {
      assert forall k :: 0 <= k < |remain| ==> remain[k] in remain;
    }

    lemma MembersWithin(a: seq<STrack>, b: seq<STrack>)
      requires forall t :: t in a ==> t in b
      ensures Members(a) <= Members(b)
    {
    }

    lemma MembersConcat(a: seq<STrack>, b: seq<STrack>)
      ensures Members(a + b) == Members(a) + Members(b)
    {
    }

    /** Round three on the unconfirmed tracks, lines 158 to 196 of BYTETracker.cpp. */
    method ThirdRound(nonActive: seq<STrack>, dets: seq<STrack>, ghost objects: seq<Object>, ghost snap: Snapshot,
                      ghost w: set<STrack>)
      returns (current: seq<STrack>, newRemoved: seq<STrack>, ghost born: seq<STrack>, count: nat,
               ghost w': set<STrack>,
               ghost hit: set<STrack>, ghost rest: seq<STrack>, ghost m: Round)
      requires frameId >= 1 && Distinct(nonActive) && Distinct(dets) && forall d :: d in dets ==> Raw(d)
      requires forall t :: t in nonActive ==> InFrame(t, frameId - 1)
      requires Members(dets) <= w && Members(nonActive) !! w && Sourced(w, objects)
      requires AsShot(snap, nonActive) && AsShot(snap, dets)
      modifies nonActive, dets
      ensures forall t :: t in nonActive ==> t.trackId == old(t.trackId)
      ensures
        && Distinct(current)
        && (forall t :: t in current ==> (t in nonActive || t in born) && InFrame(t, frameId) && t in w')
        && (forall t :: t in current ==> (t.activated <==> t in nonActive || frameId == 1))
        && (forall t :: t in newRemoved ==> t in nonActive && t !in current)
        && (forall t :: t in nonActive ==> t in current || t in newRemoved)
        && (forall t :: t in w' ==> t in current || (t in w && t !in dets) || t.score < highThresh)
        && (forall t :: t in born ==> t in dets)
        && count == trackIdCount + |born| && (forall k :: 0 <= k < |born| ==> born[k].trackId == trackIdCount + 1 + k)
        && (forall d :: d in w && d !in dets ==> d in w') && Sourced(w', objects)
        && Took(snap, m.given, hit) && Took(snap, Own(born), Members(born))
        && Starting(snap, objects, highThresh, rest, born)
        && RoundOf(m, snap, nonActive, dets, 0.7, hit, rest)
        && Members(born) <= Members(rest) && Members(current) == hit + Members(born)
    {
      var confirmed, started;
      hide Sourced, RoundOf, Distances, Consumed, Took, AsShot, Own, Starting;
      confirmed, newRemoved, started, count, rest, w', m :=
        RoundThree(nonActive, dets, highThresh, frameId, trackIdCount, objects, snap, w);
      born, hit := started, Members(confirmed);
      ConsumedFacts(w, w', nonActive, dets, Members(confirmed), rest);
      assert forall t :: t in confirmed ==> t in Members(confirmed);
      DistinctConcat(confirmed, started);
      current := confirmed + started;
    }

    /** After rounds one and two: the unconfirmed tracks and the left-over detections are still to come. */
    ghost predicate HalfStaged(known: set<STrack>, current: seq<STrack>, refind: seq<STrack>, newLost: seq<STrack>,
                               nonActive: seq<STrack>, dets: seq<STrack>, objects: seq<Object>, snap: Snapshot,
                               w: set<STrack>)
      reads this, known, tracked, lost, removed, current, refind, newLost, nonActive, dets, w
    {
      && frameId >= 1 && Known(known, trackIdCount)
      && (forall t :: t in tracked ==> t in known) && (forall t :: t in lost ==> t in known)
      && (forall t :: t in removed ==> t in known)
      && Distinct(current) && Distinct(refind) && Distinct(newLost) && Distinct(lost)
      && Distinct(nonActive) && Distinct(dets)
      && (forall t :: t in current ==> SeenNow(t, frameId) && t in tracked && t !in lost && t in w)
      && (forall t :: t in refind ==> SeenNow(t, frameId) && t in lost && t in w)
      && (forall t :: t in lost && t !in refind ==> StillLost(t, snap))
      && (forall t :: t in newLost ==> t in tracked && t !in lost && t !in current && JustLost(t, frameId))
      && (forall t :: t in nonActive ==> t in tracked && t !in lost && t !in current && t !in newLost && t !in w)
      && (forall t :: t in nonActive ==> InFrame(t, frameId - 1))
      && (forall d :: d in dets ==> d !in known && d in w && Raw(d))
      && AsShot(snap, nonActive) && AsShot(snap, dets)
      && Sourced(w, objects)
    }

    ghost predicate AllShot(snap: Snapshot, active: seq<STrack>, nonActive: seq<STrack>, lost: seq<STrack>,
                            dets: seq<STrack>, lows: seq<STrack>)
      reads active, nonActive, lost, dets, lows
    {
      AsShot(snap, active) && AsShot(snap, nonActive) && AsShot(snap, lost) && AsShot(snap, dets) && AsShot(snap, lows)
    }

    /** Step 1: the lists of the last frame, split, and the detections of this one. */
    ghost predicate Prepared(known: set<STrack>, active: seq<STrack>, nonActive: seq<STrack>, dets: seq<STrack>,
                             lows: seq<STrack>,
                             objects: seq<Object>, snap: Snapshot, w: set<STrack>)
      reads this, known, lost, active, nonActive, dets, lows, w
    {
      && frameId >= 1 && Known(known, trackIdCount)
      && (forall t :: t in tracked ==> t in known) && (forall t :: t in lost ==> t in known)
      && (forall t :: t in removed ==> t in known)
      && Distinct(active) && Distinct(nonActive) && Distinct(lost) && Distinct(dets) && Distinct(lows)
      && (forall t :: t in active ==> t in tracked && t !in nonActive && t !in lost)
      && (forall t :: t in active ==> InFrame(t, frameId - 1) && t.activated)
      && (forall t :: t in nonActive ==> t in tracked && t !in lost && InFrame(t, frameId - 1))
      && (forall t :: t in lost ==> StillLost(t, snap))
      && Members(dets) !! Members(lows) && w == Members(dets) + Members(lows) && w !! known
      && (forall d :: d in dets ==> Raw(d)) && (forall d :: d in lows ==> d.score < trackThresh)
      && (forall t :: t in tracked ==> t in active || t in nonActive)
      && AllShot(snap, active, nonActive, lost, dets, lows)
      && Sourced(w, objects)
    }

    method Prepare(objects: seq<Object>)
      returns (dets: seq<STrack>, lows: seq<STrack>, active: seq<STrack>, nonActive: seq<STrack>,
               ghost known: set<STrack>, ghost snap: Snapshot, ghost w: set<STrack>)
      requires frameId >= 1 && ValidAt(frameId - 1)
      ensures forall d :: d in dets || d in lows ==> fresh(d)
      ensures Prepared(known, active, nonActive, dets, lows, objects, snap, w)
      ensures Detected(snap, dets, lows, objects, trackThresh)
      ensures Continues(Record(), snap)
      ensures Members(active) == WithActivated(true) && Members(nonActive) == WithActivated(false)
    {
      known := Members(tracked + lost + removed);
      hide InFrame, Waiting, Raw, Sourced, AllShot, AsShot, Detected, StillLost, Ascending;
      dets, lows := MakeDetections(objects, trackThresh);
      w := Members(dets) + Members(lows);
      active, nonActive := SplitTracked();
      snap := ShotNow(known, w, active, nonActive, dets, lows, objects);
      LostNow(snap, active, nonActive, dets, lows);
    }

    lemma LostNow(snap: Snapshot, active: seq<STrack>, nonActive: seq<STrack>, dets: seq<STrack>, lows: seq<STrack>)
      requires frameId >= 1 && ValidAt(frameId - 1) && AllShot(snap, active, nonActive, lost, dets, lows)
      ensures forall t :: t in lost ==> StillLost(t, snap)
    {
    }

    /** Boxes and objects of everybody, as the frame begins. */
    lemma ShotNow(known: set<STrack>, w: set<STrack>, active: seq<STrack>, nonActive: seq<STrack>, dets: seq<STrack>,
                  lows: seq<STrack>,
               objects: seq<Object>)
      returns (snap: Snapshot)
      requires (forall t :: t in tracked ==> t in known) && (forall t :: t in lost ==> t in known)
      requires (forall t :: t in active ==> t in tracked) && (forall t :: t in nonActive ==> t in tracked)
      requires w == Members(dets) + Members(lows) && Sourced(w, objects) && Distinct(dets) && Distinct(lows)
      requires forall d :: d in dets || d in lows ==> d.source < |objects| && d.rect == objects[d.source].rect
      requires (forall d :: d in dets ==> d.score >= trackThresh) && (forall d :: d in lows ==> d.score < trackThresh)
      requires Ascending(dets) && Ascending(lows)
      ensures AllShot(snap, active, nonActive, lost, dets, lows) && Detected(snap, dets, lows, objects, trackThresh)
      ensures Continues(Record(), snap)
    {
      snap := map t | t in known + w :: Seen(t.rect, t.source, t.frameId);
      hide AsShot, Sourced, Detected, Ascending;
      TakenAsShot(snap, known + w, active);
      TakenAsShot(snap, known + w, nonActive);
      TakenAsShot(snap, known + w, lost);
      TakenAsShot(snap, known + w, dets);
      TakenAsShot(snap, known + w, lows);
      AllDetected(snap, dets, lows, objects);
    }

    lemma TakenAsShot(snap: Snapshot, all: set<STrack>, s: seq<STrack>)
      requires snap == map t | t in all :: Seen(t.rect, t.source, t.frameId)
      requires forall t :: t in s ==> t in all
      ensures AsShot(snap, s)
    {
    }

    lemma ShotInOrder(snap: Snapshot, dets: seq<STrack>)
      requires AsShot(snap, dets) && Ascending(dets)
      ensures InOrder(snap, dets)
    {
      assert forall i :: 0 <= i < |dets| ==> dets[i] in dets;
    }

    lemma AllDetected(snap: Snapshot, dets: seq<STrack>, lows: seq<STrack>, objects: seq<Object>)
      requires Distinct(dets) && Distinct(lows)
      requires AsShot(snap, dets) && AsShot(snap, lows) && Sourced(Members(dets) + Members(lows), objects)
      requires forall d :: d in dets || d in lows ==> d.source < |objects| && d.rect == objects[d.source].rect
      requires (forall d :: d in dets ==> d.score >= trackThresh) && (forall d :: d in lows ==> d.score < trackThresh)
      requires Ascending(dets) && Ascending(lows)
      ensures Detected(snap, dets, lows, objects, trackThresh)
    {
      var all := Members(dets) + Members(lows);
      ShotInOrder(snap, dets);
      ShotInOrder(snap, lows);
      forall i | 0 <= i < |objects| ensures DetectedAs(snap, all, i) {
        assert Covered(all, i);
        var d :| d in all && d.source == i;
        assert d in snap && snap[d].source == i;
      }
    }

    lemma PreparedFrames(known: set<STrack>, active: seq<STrack>, nonActive: seq<STrack>, dets: seq<STrack>,
                         lows: seq<STrack>,
                         objects: seq<Object>, snap: Snapshot, w: set<STrack>)
      requires Prepared(known, active, nonActive, dets, lows, objects, snap, w)
      ensures forall k :: 0 <= k < |active| ==> active[k] in tracked
      ensures forall k :: 0 <= k < |nonActive| ==> nonActive[k] in tracked
      ensures (forall t :: t in active ==> t in tracked) && (forall t :: t in nonActive ==> t in tracked)
      ensures Distinct(nonActive)
    {
    }

    /** Steps 2 and 3. */
    method RunActiveRounds(ghost known: set<STrack>, active: seq<STrack>, ghost nonActive: seq<STrack>,
                           dets: seq<STrack>, lows: seq<STrack>,
                           ghost objects: seq<Object>, ghost snap: Snapshot, ghost w: set<STrack>)
      returns (ok: bool, current: seq<STrack>, refind: seq<STrack>, newLost: seq<STrack>, remainDets: seq<STrack>,
               ghost w': set<STrack>, ghost p: ActivePlan)
      requires Prepared(known, active, nonActive, dets, lows, objects, snap, w)
      modifies active, lost
      ensures forall t :: t in active || t in lost ==> t.trackId == old(t.trackId)
      ensures Moderate(matchThresh) ==> ok
      ensures ok ==> HalfStaged(known, current, refind, newLost, nonActive, remainDets, objects, snap, w')
      ensures ok ==> HalfComplete(current, refind, newLost, nonActive, remainDets, w')
      ensures ok ==> Took(snap, p.first.given, p.firstHit) && Took(snap, p.second.given, p.secondHit)
      ensures ok ==>
        ActivePlanOf(p, snap, active, lost, dets, lows, matchThresh, Members(current) + Members(refind), remainDets)
      ensures ok ==> forall d :: d in remainDets ==> d in dets
      ensures ok ==> (forall t :: t in current ==> t in active) && forall t :: t in refind ==> t in lost
      ensures ok ==> forall t :: t in newLost ==> t in active
    {
      hide InFrame, SeenNow, StillLost, Waiting, JustLost, Raw, Sourced, Distinct, AsShot, ActivePlanOf, Took;
      Apart(dets, active, lost, w);
      assert forall k :: 0 <= k < |nonActive| ==> nonActive[k] in nonActive;
      assert AsShot(snap, dets) && AsShot(snap, nonActive);
      ok, current, refind, newLost, remainDets, w', p := ActiveRounds(active, dets, lows, objects, snap, w);
      assert AsShot(snap, dets) && AsShot(snap, nonActive);
      if ok {
        PartShot(snap, dets, remainDets);
      }
    }

    /** Tracks confirmed or born in round three. */
    ghost predicate Newcomers(known: set<STrack>, current: seq<STrack>, fresh': seq<STrack>, newRemoved: seq<STrack>,
                              newLost: seq<STrack>,
                              born: seq<STrack>, w: set<STrack>)
      reads this, fresh', born
    {
      && Distinct(fresh')
      && (forall t :: t in fresh' ==> InFrame(t, frameId) && t in w && (t in known || t in born))
      && (forall t :: t in fresh' ==> (t.activated <==> t in tracked || frameId == 1))
      && (forall t :: t in fresh' ==> t !in current && t !in lost && t !in newRemoved && t !in newLost)
      && (forall t :: t in born ==> t !in known)
      && (forall k :: 0 <= k < |born| ==> born[k].trackId == trackIdCount + 1 + k)
    }

    /** Step 4. */
    method RunThirdRound(ghost known: set<STrack>, ghost current: seq<STrack>, ghost refind: seq<STrack>,
                         ghost newLost: seq<STrack>,
                         nonActive: seq<STrack>, dets: seq<STrack>, ghost objects: seq<Object>,
                         ghost snap: Snapshot, ghost w: set<STrack>)
      returns (fresh': seq<STrack>, newRemoved: seq<STrack>, ghost born: seq<STrack>, count: nat, ghost w': set<STrack>,
               ghost hit: set<STrack>, ghost rest: seq<STrack>, ghost m: Round)
      requires HalfStaged(known, current, refind, newLost, nonActive, dets, objects, snap, w)
      requires HalfComplete(current, refind, newLost, nonActive, dets, w)
      modifies nonActive, dets
      ensures forall t :: t in nonActive ==> t.trackId == old(t.trackId)
      ensures forall t :: t in current || t in refind ==> t.source == old(t.source)
      ensures
        && Staged(trackIdCount, known, current, refind, newLost, newRemoved, objects, snap, w')
        && Newcomers(known, current, fresh', newRemoved, newLost, born, w')
        && Complete(current + fresh', refind, newLost, newRemoved, w')
        && count == trackIdCount + |born|
        && (forall t :: t in fresh' ==> t in nonActive || t in dets)
        && (forall t :: t in newRemoved ==> t in nonActive)
        && Took(snap, m.given, hit) && Took(snap, Own(born), Members(born))
        && Starting(snap, objects, highThresh, rest, born)
        && RoundOf(m, snap, nonActive, dets, 0.7, hit, rest)
        && Members(born) <= Members(rest) && Members(fresh') == hit + Members(born)
    {
      hide Sourced, RoundOf, Took, AsShot, Own, Starting;
      fresh', newRemoved, born, count, w', hit, rest, m := ThirdRound(nonActive, dets, objects, snap, w);
      hide Distinct;
    }

    lemma AdmitNewcomers(known: set<STrack>, current: seq<STrack>, refind: seq<STrack>, newLost: seq<STrack>,
                         newRemoved: seq<STrack>, objects: seq<Object>, snap: Snapshot, w: set<STrack>,
                         fresh': seq<STrack>, born: seq<STrack>, count: nat)
      requires Staged(trackIdCount, known, current, refind, newLost, newRemoved, objects, snap, w)
      requires Newcomers(known, current, fresh', newRemoved, newLost, born, w) && count == trackIdCount + |born|
      ensures Staged(count, known + Members(born), current + fresh', refind, newLost, newRemoved, objects, snap, w)
    {
      KnownGrows(known, trackIdCount, born);
      DistinctConcat(current, fresh');
    }

    lemma NewIds(known: set<STrack>, current: seq<STrack>, fresh': seq<STrack>, newRemoved: seq<STrack>,
                 newLost: seq<STrack>, born: seq<STrack>, w: set<STrack>)
      requires Newcomers(known, current, fresh', newRemoved, newLost, born, w)
      ensures IdsFrom(born, trackIdCount)
    {
    }

    /** Step 4 with its effect on the current tracks and on the id counter. */
    method FinishRounds(ghost known: set<STrack>, current: seq<STrack>, ghost refind: seq<STrack>,
                        ghost newLost: seq<STrack>,
                        nonActive: seq<STrack>, dets: seq<STrack>, ghost objects: seq<Object>,
                        ghost snap: Snapshot, ghost w: set<STrack>)
      returns (current': seq<STrack>, newRemoved: seq<STrack>, ghost known': set<STrack>, ghost w': set<STrack>,
               ghost born: seq<STrack>, ghost hit: set<STrack>, ghost rest: seq<STrack>, ghost m: Round)
      requires HalfStaged(known, current, refind, newLost, nonActive, dets, objects, snap, w)
      requires HalfComplete(current, refind, newLost, nonActive, dets, w)
      modifies this`trackIdCount, nonActive, dets
      ensures forall t :: t in nonActive ==> t.trackId == old(t.trackId)
      ensures forall t :: t in current || t in refind ==> t.source == old(t.source)
      ensures Took(snap, m.given, hit) && Took(snap, Own(born), Members(born))
      ensures Staged(trackIdCount, known', current', refind, newLost, newRemoved, objects, snap, w')
      ensures Complete(current', refind, newLost, newRemoved, w')
      ensures forall t :: t in current' ==> t in current || t in nonActive || t in dets
      ensures forall t :: t in newRemoved ==> t in nonActive
      ensures RoundOf(m, snap, nonActive, dets, 0.7, hit, rest) && Members(born) <= Members(rest)
      ensures Starting(snap, objects, highThresh, rest, born)
      ensures Members(current') == Members(current) + hit + Members(born)
      ensures trackIdCount == old(trackIdCount) + |born|
      ensures IdsFrom(born, old(trackIdCount))
    {
      hide *;
      var fresh', count;
      fresh', newRemoved, born, count, w', hit, rest, m :=
        RunThirdRound(known, current, refind, newLost, nonActive, dets, objects, snap, w);
      AdmitNewcomers(known, current, refind, newLost, newRemoved, objects, snap, w', fresh', born, count);
      NewIds(known, current, fresh', newRemoved, newLost, born, w');
      MembersConcat(current, fresh');
      trackIdCount := count;
      current' := current + fresh';
      known' := known + Members(born);
    }

    /** Steps 1 to 4: everything up to the list update. */
    method RunRounds(objects: seq<Object>, ghost shot: Snapshot, ghost confirmed: set<STrack>,
                     ghost unconfirmed: set<STrack>)
      returns (ok: bool, current: seq<STrack>, refind: seq<STrack>, newLost: seq<STrack>, newRemoved: seq<STrack>,
               ghost known: set<STrack>, ghost w: set<STrack>, ghost plan: Plan)
      requires frameId >= 1 && ValidAt(frameId - 1)
      requires shot == Record() && confirmed == WithActivated(true) && unconfirmed == WithActivated(false)
      modifies this`trackIdCount, tracked, lost
      ensures forall t :: t in tracked || t in lost ==> t.trackId == old(t.trackId)
      ensures ok ==> forall t :: t in current ==> t in tracked || fresh(t)
      ensures ok ==> (forall t :: t in refind ==> t in lost) && forall t :: t in newLost ==> t in tracked
      ensures ok ==> Staged(trackIdCount, known, current, refind, newLost, newRemoved, objects, plan.snap, w)
      ensures ok ==> Members(newLost) <= confirmed && Members(newRemoved) <= unconfirmed
      ensures ok ==> Complete(current, refind, newLost, newRemoved, w)
      ensures Moderate(matchThresh) ==> ok
      ensures ok ==>
        Followed(plan, matchThresh, trackThresh, highThresh, objects, Members(current) + Members(refind))
      ensures ok ==> plan.lost == lost && trackIdCount == old(trackIdCount) + |plan.born|
      ensures ok ==> IdsFrom(plan.born, old(trackIdCount))
      ensures ok ==> forall d :: d in plan.dets || d in plan.lows ==> fresh(d)
      ensures ok ==> Continues(shot, plan.snap)
      ensures ok ==> Members(plan.active) == confirmed && Members(plan.nonActive) == unconfirmed
    {
      hide *;
      newRemoved, plan := [], *;
      var dets, lows, active, nonActive, remainDets;
      ghost var snap;
      dets, lows, active, nonActive, known, snap, w := Prepare(objects);
      PreparedFrames(known, active, nonActive, dets, lows, objects, snap, w);
      ghost var p;
      ok, current, refind, newLost, remainDets, w, p :=
        RunActiveRounds(known, active, nonActive, dets, lows, objects, snap, w);
      if !ok {
        return;
      }
      assert forall k :: 0 <= k < |remainDets| ==> remainDets[k] in dets;
      current, newRemoved, known, w, plan :=
        CompletePlan(known, current, refind, newLost, active, nonActive, dets, lows, remainDets, objects, snap, w, p);
      MembersWithin(newLost, active);
      MembersWithin(newRemoved, nonActive);
    }

    /** Step 4, and the account of all three rounds. */
    method CompletePlan(ghost known: set<STrack>, current: seq<STrack>, ghost refind: seq<STrack>,
                        ghost newLost: seq<STrack>,
                        ghost active: seq<STrack>, nonActive: seq<STrack>, ghost dets: seq<STrack>,
                        ghost lows: seq<STrack>,
                        remainDets: seq<STrack>, ghost objects: seq<Object>, ghost snap: Snapshot,
                        ghost w: set<STrack>, ghost p: ActivePlan)
      returns (current': seq<STrack>, newRemoved: seq<STrack>, ghost known': set<STrack>, ghost w': set<STrack>,
               ghost plan: Plan)
      requires HalfStaged(known, current, refind, newLost, nonActive, remainDets, objects, snap, w)
      requires HalfComplete(current, refind, newLost, nonActive, remainDets, w)
      requires ActivePlanOf(p, snap, active, lost, dets, lows, matchThresh,
                            Members(current) + Members(refind), remainDets)
      requires Took(snap, p.first.given, p.firstHit) && Took(snap, p.second.given, p.secondHit) && Distinct(nonActive)
      requires Detected(snap, dets, lows, objects, trackThresh)
      modifies this`trackIdCount, nonActive, remainDets
      ensures forall t :: t in nonActive ==> t.trackId == old(t.trackId)
      ensures forall t :: t in current' ==> t in current || t in nonActive || t in remainDets
      ensures forall t :: t in newRemoved ==> t in nonActive
      ensures Staged(trackIdCount, known', current', refind, newLost, newRemoved, objects, snap, w')
      ensures Complete(current', refind, newLost, newRemoved, w')
      ensures Followed(plan, matchThresh, trackThresh, highThresh, objects, Members(current') + Members(refind))
      ensures trackIdCount == old(trackIdCount) + |plan.born|
      ensures IdsFrom(plan.born, old(trackIdCount))
      ensures plan.snap == snap && plan.active == active && plan.nonActive == nonActive && plan.lost == lost
      ensures plan.dets == dets && plan.lows == lows
    {
      hide *;
      ghost var born, thirdHit, thirdRest, third;
      ghost var activeHit := Members(current) + Members(refind);
      ghost var sources := Sources(activeHit);
      HitMembers(p, snap, active, dets, lows, current, refind, remainDets);
      SourcesNow(snap, p.first.given, p.firstHit, activeHit);
      SourcesNow(snap, p.second.given, p.secondHit, activeHit);
      current', newRemoved, known', w', born, thirdHit, thirdRest, third :=
        FinishRounds(known, current, refind, newLost, nonActive, remainDets, objects, snap, w);
      StillTook(snap, p.first.given, p.firstHit, sources);
      StillTook(snap, p.second.given, p.secondHit, sources);
      ghost var took := p.first.given + p.second.given + third.given + Own(born);
      plan :=
        Plan(snap, took, active, lost, nonActive, dets, lows, p, activeHit, remainDets,
             third, thirdHit, thirdRest, born);
      PlanMade(plan, Members(current') + Members(refind));
      TookAll(plan, matchThresh, trackThresh, highThresh, objects, Members(current') + Members(refind));
    }

    lemma HitMembers(p: ActivePlan, snap: Snapshot, active: seq<STrack>, dets: seq<STrack>, lows: seq<STrack>,
                     current: seq<STrack>, refind: seq<STrack>, rest: seq<STrack>)
      requires ActivePlanOf(p, snap, active, lost, dets, lows, matchThresh, Members(current) + Members(refind), rest)
      ensures p.firstHit <= Members(current) + Members(refind) && p.secondHit <= Members(current) + Members(refind)
      ensures forall t :: t in Members(current) + Members(refind) ==> t in current || t in refind
    {
    }

    lemma SourcesNow(snap: Snapshot, given: map<STrack, STrack>, s: set<STrack>, all: set<STrack>)
      requires Took(snap, given, s) && s <= all
      ensures TookBy(snap, given, s, Sources(all))
      ensures Sources(all).Keys == all && forall t :: t in all ==> Sources(all)[t] == t.source
    {
    }

    lemma StillTook(snap: Snapshot, given: map<STrack, STrack>, s: set<STrack>, sources: map<STrack, nat>)
      requires TookBy(snap, given, s, sources) && forall t :: t in s ==> t in sources && t.source == sources[t]
      ensures Took(snap, given, s)
    {
    }

    lemma PlanMade(p: Plan, seen: set<STrack>)
      requires ActivePlanOf(p.activePlan, p.snap, p.active, p.lost, p.dets, p.lows, matchThresh, p.activeHit, p.rest)
      requires Distinct(p.nonActive)
      requires p.took == p.activePlan.first.given + p.activePlan.second.given + p.third.given + Own(p.born)
      requires RoundOf(p.third, p.snap, p.nonActive, p.rest, 0.7, p.thirdHit, p.thirdRest)
      requires Members(p.born) <= Members(p.thirdRest) && seen == p.activeHit + p.thirdHit + Members(p.born)
      ensures PlanOf(p, matchThresh, seen)
    {
    }

    /** Lines 199 to 206 of BYTETracker.cpp: lost tracks that have waited too long are marked as removed. */
    method RetireLost(newRemoved: seq<STrack>) returns (res: seq<STrack>)
      requires forall t :: t in lost ==> t.frameId <= frameId
      modifies set t | t in lost && frameId - t.frameId > maxTimeLost :: t`state
      ensures forall t :: t in res <==> t in newRemoved || (t in lost && frameId - t.frameId > maxTimeLost)
      ensures forall t :: t in lost && frameId - t.frameId > maxTimeLost ==> t.state == Removed
    {
      res := newRemoved;
      for i := 0 to |lost|
        invariant forall t :: t in res <==> t in newRemoved || (t in lost[..i] && frameId - t.frameId > maxTimeLost)
        invariant forall t :: t in lost[..i] && frameId - t.frameId > maxTimeLost ==> t.state == Removed
      {
        assert lost[..i + 1] == lost[..i] + [lost[i]];
        if frameId - lost[i].frameId > maxTimeLost {
          lost[i].MarkAsRemoved();
          res := res + [lost[i]];
        }
      }
      assert lost[..|lost|] == lost;
    }

    /** Line 208 of BYTETracker.cpp: everything seen in this frame. */
    method NewTracked(ghost known: set<STrack>, current: seq<STrack>, refind: seq<STrack>) returns (res: seq<STrack>)
      requires Unique(known) && (forall t :: t in current ==> t in known) && (forall t :: t in refind ==> t in known)
      requires Distinct(current)
      ensures Distinct(res)
      ensures forall t :: t in res <==> t in current || t in refind
    {
      assert Members(current + refind) <= known;
      res := JointStracks(current, refind);
    }

    /** Line 209 of BYTETracker.cpp: lost before and not seen now, or lost just now; but never a track removed in
        an earlier frame. */
    method NewLost(ghost known: set<STrack>, nowTracked: seq<STrack>, newLost: seq<STrack>) returns (res: seq<STrack>)
      requires Unique(known)
      requires (forall t :: t in lost ==> t in known) && (forall t :: t in removed ==> t in known)
      requires (forall t :: t in nowTracked ==> t in known) && (forall t :: t in newLost ==> t in known)
      ensures Distinct(res)
      ensures forall t :: t in res <==> ((t in lost && t !in nowTracked) || t in newLost) && t !in removed
    {
      assert Members(lost + nowTracked) <= known;
      var l1 := SubStracks(lost, nowTracked);
      assert forall t :: t in l1 ==> t in known;
      assert Members(l1 + newLost) <= known;
      var l2 := JointStracks(l1, newLost);
      assert forall t :: t in l2 ==> t in known;
      assert Members(l2 + removed) <= known;
      res := SubStracks(l2, removed);
    }

    /** Line 210 of BYTETracker.cpp: removed tracks are remembered for good. */
    method NewRemoved(ghost known: set<STrack>, newRemoved: seq<STrack>) returns (res: seq<STrack>)
      requires Unique(known)
      requires (forall t :: t in removed ==> t in known) && (forall t :: t in newRemoved ==> t in known)
      ensures forall t :: t in res <==> t in removed || t in newRemoved
    {
      assert Members(removed + newRemoved) <= known;
      res := JointStracks(removed, newRemoved);
    }

    /** The lists between lines 210 and 213 of BYTETracker.cpp, before de-duplication. */
    ghost predicate Merged(known: set<STrack>, nowTracked: seq<STrack>, nowLost: seq<STrack>, nowRemoved: seq<STrack>)
      reads this`frameId, this`trackIdCount, known, nowTracked, nowLost, nowRemoved
    {
      && Known(known, trackIdCount)
      && (forall t :: t in nowTracked ==> t in known) && (forall t :: t in nowLost ==> t in known)
      && (forall t :: t in nowRemoved ==> t in known)
      && Distinct(nowTracked) && Distinct(nowLost)
      && (forall t :: t in nowTracked ==> InFrame(t, frameId) && t !in nowLost)
      && (forall t :: t in nowLost ==> Waiting(t, frameId, nowRemoved, Patience(maxTimeLost)))
    }

    /** Lines 199 to 206 of BYTETracker.cpp, seen from the invariant: whoever is still to be kept waits on, as
        lost or as removed. */
    method AgeLost(ghost known: set<STrack>, current: seq<STrack>, refind: seq<STrack>, newLost: seq<STrack>,
                   newRemoved: seq<STrack>, ghost objects: seq<Object>, ghost snap: Snapshot,
                   ghost w: set<STrack>)
      returns (aged: seq<STrack>)
      requires Staged(trackIdCount, known, current, refind, newLost, newRemoved, objects, snap, w)
      modifies set t | t in lost && frameId - t.frameId > maxTimeLost :: t`state
      ensures forall t :: t in lost && t !in refind && t !in removed ==>
        Waiting(t, frameId, aged, Patience(maxTimeLost))
      ensures forall t :: t in newLost ==> Waiting(t, frameId, aged, Patience(maxTimeLost))
      ensures forall t :: t in current || t in refind ==> InFrame(t, frameId)
      ensures forall t :: t in aged ==> t in known
      ensures Members(aged) == Members(newRemoved) + (Overdue(lost, snap, frameId, maxTimeLost) - Members(refind))
      ensures forall t :: t in lost && t !in refind ==> t.frameId == LastFrame(snap, t)
      ensures forall t :: t in newLost ==> t.frameId == frameId - 1
      ensures Known(known, trackIdCount) && Sourced(w, objects)
    {
      hide Sourced, Distinct;
      aged := RetireLost(newRemoved);
    }

    /** Step 5 up to line 210 of BYTETracker.cpp. */
    method MergeLists(ghost known: set<STrack>, current: seq<STrack>, refind: seq<STrack>, newLost: seq<STrack>,
                      newRemoved: seq<STrack>, ghost objects: seq<Object>, ghost snap: Snapshot,
                   ghost w: set<STrack>)
      returns (nowTracked: seq<STrack>, nowLost: seq<STrack>, nowRemoved: seq<STrack>)
      requires Staged(trackIdCount, known, current, refind, newLost, newRemoved, objects, snap, w)
      modifies set t | t in lost && frameId - t.frameId > maxTimeLost :: t`state
      ensures Merged(known, nowTracked, nowLost, nowRemoved)
      ensures forall t :: t in nowTracked <==> t in current || t in refind
      ensures forall t :: t in nowLost <==> ((t in lost && t !in refind) || t in newLost) && t !in removed
      ensures forall t :: t in nowRemoved <==>
        t in removed || t in newRemoved || (t in Overdue(lost, snap, frameId, maxTimeLost) && t !in refind)
      ensures forall t :: t in nowTracked ==> (t.activated <==> t in tracked || t in lost || frameId == 1)
      ensures forall t :: t in nowLost ==>
        t.frameId == if t in newLost then frameId - 1 else LastFrame(snap, t)
      ensures Sourced(w, objects)
    {
      hide *;
      StagedMembers(known, current, refind, newLost, newRemoved, objects, snap, w);
      var aged := AgeLost(known, current, refind, newLost, newRemoved, objects, snap, w);
      UniqueKnown(known);
      nowTracked := NewTracked(known, current, refind);
      nowLost := NewLost(known, nowTracked, newLost);
      nowRemoved := NewRemoved(known, aged);
      forall t | t in nowLost ensures Waiting(t, frameId, nowRemoved, Patience(maxTimeLost)) {
        assert t !in removed && Waiting(t, frameId, aged, Patience(maxTimeLost));
        WaitingOn(t, aged, nowRemoved);
      }
      MergedMade(known, nowTracked, nowLost, nowRemoved);
      RemovedNow(newRemoved, aged, refind, Overdue(lost, snap, frameId, maxTimeLost), nowRemoved);
    }

    lemma RemovedNow(newRemoved: seq<STrack>, aged: seq<STrack>, refind: seq<STrack>, overdue: set<STrack>,
                     nowRemoved: seq<STrack>)
      requires Members(aged) == Members(newRemoved) + (overdue - Members(refind))
      requires forall t :: t in nowRemoved <==> t in removed || t in aged
      ensures forall t :: t in nowRemoved <==> t in removed || t in newRemoved || (t in overdue && t !in refind)
    {
      assert forall t :: t in aged <==> t in Members(aged);
    }

    lemma WaitingOn(t: STrack, a: seq<STrack>, b: seq<STrack>)
      requires Waiting(t, frameId, a, Patience(maxTimeLost)) && (t in a <==> t in b)
      ensures Waiting(t, frameId, b, Patience(maxTimeLost))
    {
    }

    lemma UniqueKnown(known: set<STrack>)
      requires Known(known, trackIdCount)
      ensures Unique(known)
    {
    }

    lemma StagedMembers(known: set<STrack>, current: seq<STrack>, refind: seq<STrack>, newLost: seq<STrack>,
                        newRemoved: seq<STrack>, objects: seq<Object>, snap: Snapshot, w: set<STrack>)
      requires Staged(trackIdCount, known, current, refind, newLost, newRemoved, objects, snap, w)
      ensures (forall t :: t in lost ==> t in known) && (forall t :: t in removed ==> t in known)
      ensures (forall t :: t in current ==> t in known && t !in lost) && (forall t :: t in refind ==> t in lost)
      ensures forall t :: t in newLost ==> t in known && t in tracked && t !in current && t !in lost
      ensures Distinct(current)
      ensures forall t :: t in current ==> (t.activated <==> t in tracked || frameId == 1)
      ensures forall t :: t in refind ==> t.activated
    {
    }

    lemma MergedMade(known: set<STrack>, nowTracked: seq<STrack>, nowLost: seq<STrack>, nowRemoved: seq<STrack>)
      requires Known(known, trackIdCount)
      requires (forall t :: t in nowTracked ==> t in known) && (forall t :: t in nowLost ==> t in known)
      requires forall t :: t in nowRemoved ==> t in known
      requires Distinct(nowTracked) && Distinct(nowLost)
      requires forall t :: t in nowTracked ==> InFrame(t, frameId) && t !in nowLost
      requires forall t :: t in nowLost ==> Waiting(t, frameId, nowRemoved, Patience(maxTimeLost))
      ensures Merged(known, nowTracked, nowLost, nowRemoved)
    {
    }

    lemma KeptMerged(known: set<STrack>, a: seq<STrack>, b: seq<STrack>, r: seq<STrack>, a': seq<STrack>,
                     b': seq<STrack>)
      requires Merged(known, a, b, r) && Distinct(a') && Distinct(b')
      requires (forall t :: t in a' ==> t in a) && (forall t :: t in b' ==> t in b)
      ensures Merged(known, a', b', r)
    {
    }

    lemma MergedDistinct(known: set<STrack>, a: seq<STrack>, b: seq<STrack>, r: seq<STrack>)
      requires Merged(known, a, b, r)
      ensures Distinct(a) && Distinct(b)
    {
    }

    lemma MergedIsValid(known: set<STrack>)
      requires Merged(known, tracked, lost, removed)
      ensures Valid()
    {
      KnownSubset(known, Members(tracked + lost + removed), trackIdCount);
    }

    /** Line 213 of BYTETracker.cpp: the lists without the losing track of each overlapping pair. */
    method Survivors(ghost known: set<STrack>, nowTracked: seq<STrack>, nowLost: seq<STrack>,
                     ghost nowRemoved: seq<STrack>)
      returns (trackedOut: seq<STrack>, lostOut: seq<STrack>, ghost o: Overlaps, ghost dropA: seq<bool>,
               ghost dropB: seq<bool>)
      requires Merged(known, nowTracked, nowLost, nowRemoved)
      ensures Merged(known, trackedOut, lostOut, nowRemoved)
      ensures OverlapsOf(o, nowTracked, nowLost) && DropFlags(o, dropA, dropB)
      ensures |nowTracked| == |dropA| && |nowLost| == |dropB|
      ensures trackedOut == Keep(nowTracked, dropA) && lostOut == Keep(nowLost, dropB)
      ensures forall t :: t in trackedOut ==> t in nowTracked
      ensures forall t :: t in lostOut ==> t in nowLost
      ensures forall t, u :: t in trackedOut && u in lostOut ==> Distance(t, u) >= 0.15
    {
      hide *;
      trackedOut, lostOut, o, dropA, dropB := RemoveDuplicateStracks(nowTracked, nowLost);
      MergedDistinct(known, nowTracked, nowLost, nowRemoved);
      KeptTracks(nowTracked, nowLost, o, dropA, dropB);
      KeptMerged(known, nowTracked, nowLost, nowRemoved, trackedOut, lostOut);
    }

    /** Lines 212 to 215 of BYTETracker.cpp. */
    method Deduplicate(ghost known: set<STrack>, nowTracked: seq<STrack>, nowLost: seq<STrack>, nowRemoved: seq<STrack>)
      returns (ghost o: Overlaps, ghost dropA: seq<bool>, ghost dropB: seq<bool>)
      requires Merged(known, nowTracked, nowLost, nowRemoved)
      modifies this`tracked, this`lost, this`removed
      ensures Valid() && OverlapsOf(o, nowTracked, nowLost) && DropFlags(o, dropA, dropB)
      ensures |nowTracked| == |dropA| && |nowLost| == |dropB|
      ensures tracked == Keep(nowTracked, dropA) && lost == Keep(nowLost, dropB) && removed == nowRemoved
      ensures forall t :: t in tracked ==> t in nowTracked
      ensures forall t :: t in lost ==> t in nowLost
      ensures forall t, u :: t in tracked && u in lost ==> Distance(t, u) >= 0.15
    {
      hide *;
      tracked, lost, o, dropA, dropB := Survivors(known, nowTracked, nowLost, nowRemoved);
      removed := nowRemoved;
      MergedIsValid(known);
    }

    /** Step 5, lines 199 to 215 of BYTETracker.cpp: the new lists, without the losing track of each overlapping
        pair. */
    method UpdateLists(ghost known: set<STrack>, current: seq<STrack>, refind: seq<STrack>, newLost: seq<STrack>,
                       newRemoved: seq<STrack>, ghost objects: seq<Object>, ghost snap: Snapshot,
                   ghost w: set<STrack>)
      returns (ghost all: seq<STrack>, ghost allLost: seq<STrack>, ghost o: Overlaps, ghost dropA: seq<bool>,
               ghost dropB: seq<bool>)
      requires Staged(trackIdCount, known, current, refind, newLost, newRemoved, objects, snap, w)
      modifies this`tracked, this`lost, this`removed
      modifies set t | t in lost && frameId - t.frameId > maxTimeLost :: t`state
      ensures Valid() && Sourced(w, objects)
      ensures forall t :: t in all <==> t in current || t in refind
      ensures AllInFrame(all, frameId)
      ensures forall t :: t in tracked ==> (t.activated <==> t in old(tracked) || t in old(lost) || frameId == 1)
      ensures forall t :: t in allLost <==> ((t in old(lost) && t !in refind) || t in newLost) && t !in old(removed)
      ensures OverlapsOf(o, all, allLost) && DropFlags(o, dropA, dropB) && |all| == |dropA| && |allLost| == |dropB|
      ensures tracked == Keep(all, dropA) && lost == Keep(allLost, dropB)
      ensures forall t :: t in tracked ==> t in current || t in refind
      ensures forall t, u :: t in tracked && u in lost ==> Distance(t, u) >= 0.15
      ensures (forall t :: t in tracked ==> t in all) && (forall t :: t in lost ==> t in allLost)
      ensures forall t :: t in removed <==>
        t in old(removed) || t in newRemoved || (t in Overdue(old(lost), snap, frameId, maxTimeLost) && t !in refind)
      ensures forall t :: t in lost ==>
        t.frameId == if t in newLost then frameId - 1 else LastFrame(snap, t)
    {
      var nowTracked, nowLost, nowRemoved := MergeLists(known, current, refind, newLost, newRemoved, objects, snap, w);
      all, allLost := nowTracked, nowLost;
      assert AllInFrame(all, frameId);
      hide Sourced, Merged, Valid, Staged, OverlapsOf, DropFlags, Keep, Distance, AllInFrame;
      o, dropA, dropB := Deduplicate(known, nowTracked, nowLost, nowRemoved);
    }

    /** Lines 217 to 224 of BYTETracker.cpp. */
    method ActivatedTracks() returns (output: seq<STrack>)
      ensures output == Confirmed(tracked)
    {
      output := [];
      for i := 0 to |tracked|
        invariant output == Confirmed(tracked[..i])
      {
        assert tracked[..i + 1][..i] == tracked[..i];
        if tracked[i].activated {
          output := output + [tracked[i]];
        }
      }
      assert tracked[..|tracked|] == tracked;
    }

    /** One frame; all and allLost are the lists before de-duplication, and the plan says who was matched with what.
        `ok` is false when an assignment threw, which no moderate limit lets happen. */
    method Update(objects: seq<Object>)
      returns (ok: bool, output: seq<STrack>, ghost all: seq<STrack>, ghost allLost: seq<STrack>, ghost plan: Plan)
      requires Valid()
      modifies this, tracked, lost
      ensures frameId == old(frameId) + 1
      ensures forall t :: t in old(tracked) || t in old(lost) ==> t.trackId == old(t.trackId)
      ensures Moderate(matchThresh) ==> ok
      ensures ok ==> Valid()
      ensures ok ==> output == Confirmed(tracked)
      ensures ok ==> OneDetectionEach(tracked, objects) && |tracked| <= |objects|
      ensures ok ==> forall t, u :: t in tracked && u in lost ==> Distance(t, u) >= 0.15
      ensures ok ==> forall t :: t in tracked || t in lost ==> t in old(tracked) || t in old(lost) || fresh(t)
      ensures ok ==>
        Carried(old(WithActivated(true)), old(WithActivated(false)), old(lost), old(removed),
                Overdue(old(lost), old(Record()), frameId, maxTimeLost), all, allLost, tracked, lost,
                removed)
      ensures ok ==> forall t :: t in lost ==> t.frameId == LastFrame(old(Record()), t)
      ensures ok ==> ConfidentSeen(all, objects) && OnlyDuplicatesDropped(all, allLost, tracked, lost)
      ensures ok ==> AllInFrame(all, frameId)
      ensures ok ==> forall t :: t in tracked ==> (t.activated <==> t in old(tracked) || t in old(lost) || frameId == 1)
      ensures ok ==> Followed(plan, matchThresh, trackThresh, highThresh, objects, Members(all))
      ensures ok ==> trackIdCount == old(trackIdCount) + |plan.born|
      ensures ok ==> IdsFrom(plan.born, old(trackIdCount))
      ensures ok ==> Continues(old(Record()), plan.snap) && plan.lost == old(lost)
      ensures ok ==> forall d :: d in plan.dets || d in plan.lows ==> fresh(d)
      ensures ok ==>
        Members(plan.active) == old(WithActivated(true)) && Members(plan.nonActive) == old(WithActivated(false))
    {
      ValidHere();
      hide *;
      ghost var shot, confirmed, unconfirmed := Record(), WithActivated(true), WithActivated(false);
      frameId := frameId + 1;
      ok, output, all, allLost, plan := RunFrame(objects, shot, confirmed, unconfirmed);
    }

    /** The frame, once it has been counted. */
    method RunFrame(objects: seq<Object>, ghost shot: Snapshot, ghost confirmed: set<STrack>,
                    ghost unconfirmed: set<STrack>)
      returns (ok: bool, output: seq<STrack>, ghost all: seq<STrack>, ghost allLost: seq<STrack>, ghost plan: Plan)
      requires frameId >= 1 && ValidAt(frameId - 1)
      requires shot == Record() && confirmed == WithActivated(true) && unconfirmed == WithActivated(false)
      modifies this`trackIdCount, this`tracked, this`lost, this`removed, tracked, lost
      ensures forall t :: t in old(tracked) || t in old(lost) ==> t.trackId == old(t.trackId)
      ensures Moderate(matchThresh) ==> ok
      ensures ok ==> Valid()
      ensures ok ==> output == Confirmed(tracked)
      ensures ok ==> OneDetectionEach(tracked, objects) && |tracked| <= |objects|
      ensures ok ==> forall t, u :: t in tracked && u in lost ==> Distance(t, u) >= 0.15
      ensures ok ==> forall t :: t in tracked || t in lost ==> t in old(tracked) || t in old(lost) || fresh(t)
      ensures ok ==>
        Carried(confirmed, unconfirmed, old(lost), old(removed), Overdue(old(lost), shot, frameId, maxTimeLost), all,
                allLost, tracked, lost, removed)
      ensures ok ==> forall t :: t in lost ==> t.frameId == LastFrame(shot, t)
      ensures ok ==> ConfidentSeen(all, objects) && OnlyDuplicatesDropped(all, allLost, tracked, lost)
      ensures ok ==> AllInFrame(all, frameId)
      ensures ok ==> forall t :: t in tracked ==> (t.activated <==> t in old(tracked) || t in old(lost) || frameId == 1)
      ensures ok ==> Followed(plan, matchThresh, trackThresh, highThresh, objects, Members(all))
      ensures ok ==> trackIdCount == old(trackIdCount) + |plan.born|
      ensures ok ==> IdsFrom(plan.born, old(trackIdCount))
      ensures ok ==> plan.lost == old(lost)
      ensures ok ==> Continues(shot, plan.snap)
      ensures ok ==> forall d :: d in plan.dets || d in plan.lows ==> fresh(d)
      ensures ok ==> Members(plan.active) == confirmed && Members(plan.nonActive) == unconfirmed
    {
      hide *;
      output, all, allLost := [], [], [];
      var current, refind, newLost, newRemoved;
      ghost var known, w;
      BeforeFrame(shot, confirmed, unconfirmed);
      ok, current, refind, newLost, newRemoved, known, w, plan := RunRounds(objects, shot, confirmed, unconfirmed);
      if !ok {
        return;
      }
      ghost var seen, was := Members(current) + Members(refind), lost;
      assert Followed(plan, matchThresh, trackThresh, highThresh, objects, seen);
      output, all, allLost :=
        Conclude(known, current, refind, newLost, newRemoved, objects, plan.snap, w, confirmed, unconfirmed);
      assert Followed(plan, matchThresh, trackThresh, highThresh, objects, seen);
      AllMembers(all, current, refind);
      SameOverdue(was, shot, plan.snap);
      LastSeenThen(was, shot, plan.snap, confirmed, newLost);
    }

    /** Step 5 and the output. */
    method Conclude(ghost known: set<STrack>, current: seq<STrack>, refind: seq<STrack>, newLost: seq<STrack>,
                    newRemoved: seq<STrack>, ghost objects: seq<Object>, ghost snap: Snapshot, ghost w: set<STrack>,
                    ghost confirmed: set<STrack>, ghost unconfirmed: set<STrack>)
      returns (output: seq<STrack>, ghost all: seq<STrack>, ghost allLost: seq<STrack>)
      requires Staged(trackIdCount, known, current, refind, newLost, newRemoved, objects, snap, w)
      requires Complete(current, refind, newLost, newRemoved, w)
      requires Members(tracked) == confirmed + unconfirmed && confirmed !! unconfirmed
      requires forall t :: t in tracked ==> t !in lost
      requires Members(newLost) <= confirmed && Members(newRemoved) <= unconfirmed
      modifies this`tracked, this`lost, this`removed
      modifies set t | t in lost && frameId - t.frameId > maxTimeLost :: t`state
      ensures Valid() && output == Confirmed(tracked)
      ensures OneDetectionEach(tracked, objects) && |tracked| <= |objects|
      ensures forall t, u :: t in tracked && u in lost ==> Distance(t, u) >= 0.15
      ensures forall t :: t in tracked ==> t in current || t in refind
      ensures forall t :: t in lost ==> t in old(lost) || t in newLost
      ensures forall t :: t in all <==> t in current || t in refind
      ensures AllInFrame(all, frameId)
      ensures forall t :: t in tracked ==> (t.activated <==> t in old(tracked) || t in old(lost) || frameId == 1)
      ensures Carried(confirmed, unconfirmed, old(lost), old(removed), Overdue(old(lost), snap, frameId, maxTimeLost),
                      all, allLost, tracked, lost, removed)
      ensures forall t :: t in lost ==>
        t.frameId == if t in newLost then frameId - 1 else LastFrame(snap, t)
      ensures ConfidentSeen(all, objects) && OnlyDuplicatesDropped(all, allLost, tracked, lost)
    {
      ghost var o, dropA, dropB;
      hide *;
      ListsApart(known, current, refind, newLost, newRemoved, objects, snap, w);
      Accounted(known, current, refind, newLost, newRemoved, objects, snap, w);
      all, allLost, o, dropA, dropB := UpdateLists(known, current, refind, newLost, newRemoved, objects, snap, w);
      ValidIsDistinct();
      AllSourced(tracked, w, objects);
      MoreSeen(current + refind, all, objects);
      ghost var t0, l0, r0 := old(tracked), old(lost), old(removed);
      OverdueIsLost(l0, snap, frameId);
      CarriedOn(t0, confirmed, unconfirmed, l0, r0, Overdue(l0, snap, frameId, maxTimeLost), current, refind, newLost,
                newRemoved, all, allLost, tracked, lost, removed);
      DroppedOverlap(all, allLost, o, dropA, dropB);
      output := ActivatedTracks();
    }

    lemma OverdueIsLost(l: seq<STrack>, snap: Snapshot, frame: nat)
      ensures Overdue(l, snap, frame, maxTimeLost) <= Members(l)
    {
    }

    lemma BeforeFrame(shot: Snapshot, confirmed: set<STrack>, unconfirmed: set<STrack>)
      requires frameId >= 1 && ValidAt(frameId - 1) && shot == Record()
      requires confirmed == WithActivated(true) && unconfirmed == WithActivated(false)
      ensures Members(tracked) == confirmed + unconfirmed && confirmed !! unconfirmed
      ensures forall t :: t in tracked ==> t !in lost
      ensures shot.Keys == Members(tracked) + Members(lost)
      ensures forall t :: t in confirmed ==> shot[t].frame == frameId - 1
      ensures forall t :: t in lost ==> t in shot
    {
    }

    lemma SameOverdue(l: seq<STrack>, shot: Snapshot, snap: Snapshot)
      requires Continues(shot, snap) && forall t :: t in l ==> t in shot
      ensures Overdue(l, shot, frameId, maxTimeLost) == Overdue(l, snap, frameId, maxTimeLost)
    {
    }

    lemma LastSeenThen(was: seq<STrack>, shot: Snapshot, snap: Snapshot, confirmed: set<STrack>, newLost: seq<STrack>)
      requires frameId >= 1 && Continues(shot, snap) && Members(newLost) <= confirmed <= shot.Keys
      requires forall t :: t in confirmed ==> shot[t].frame == frameId - 1
      requires forall t :: t in was ==> t in shot
      requires forall t :: t in lost ==> t in was || t in newLost
      requires forall t :: t in lost ==>
        t.frameId == if t in newLost then frameId - 1 else LastFrame(snap, t)
      ensures forall t :: t in lost ==> t.frameId == LastFrame(shot, t)
    {
    }

    lemma ListsApart(known: set<STrack>, current: seq<STrack>, refind: seq<STrack>, newLost: seq<STrack>,
                     newRemoved: seq<STrack>,
                     objects: seq<Object>, snap: Snapshot, w: set<STrack>)
      requires Staged(trackIdCount, known, current, refind, newLost, newRemoved, objects, snap, w)
      ensures forall t :: t in newLost || t in newRemoved ==> t !in current && t !in refind
      ensures forall t :: t in lost ==> t !in current
      ensures forall t :: t in refind ==> t in lost
    {
    }

    /** Each object above both thresholds is one that a track of the list has been seen as. */
    ghost predicate ConfidentSeen(l: seq<STrack>, objects: seq<Object>)
      reads set t | t in l :: t`source
    {
      forall i :: 0 <= i < |objects| && objects[i].prob >= trackThresh && objects[i].prob >= highThresh ==>
        Covered(Members(l), i)
    }

    lemma Accounted(known: set<STrack>, current: seq<STrack>, refind: seq<STrack>, newLost: seq<STrack>,
                    newRemoved: seq<STrack>,
                    objects: seq<Object>, snap: Snapshot, w: set<STrack>)
      requires Staged(trackIdCount, known, current, refind, newLost, newRemoved, objects, snap, w)
      requires Complete(current, refind, newLost, newRemoved, w)
      ensures forall t :: t in tracked ==> t in current || t in newLost || t in newRemoved
      ensures forall t :: t in current || t in refind ==> t in w
      ensures ConfidentSeen(current + refind, objects)
    {
      forall i | 0 <= i < |objects| && objects[i].prob >= trackThresh && objects[i].prob >= highThresh
        ensures Covered(Members(current + refind), i)
      {
        assert Covered(w, i);
        var t :| t in w && t.source == i;
        assert t in current + refind;
      }
    }

    lemma MoreSeen(l: seq<STrack>, all: seq<STrack>, objects: seq<Object>)
      requires ConfidentSeen(l, objects) && forall t :: t in l ==> t in all
      ensures ConfidentSeen(all, objects)
    {
      forall i | 0 <= i < |objects| && objects[i].prob >= trackThresh && objects[i].prob >= highThresh
        ensures Covered(Members(all), i)
      {
        assert Covered(Members(l), i);
        var t :| t in Members(l) && t.source == i;
        assert t in all;
      }
    }

    lemma ValidHere()
      requires Valid()
      ensures ValidAt(frameId)
    {
    }

    lemma AllMembers(all: seq<STrack>, current: seq<STrack>, refind: seq<STrack>)
      requires forall t :: t in all <==> t in current || t in refind
      ensures Members(all) == Members(current) + Members(refind)
    {
    }

    lemma ValidIsDistinct()
      requires Valid()
      ensures Distinct(tracked)
    {
    }
  }

  /** Every track used one detection of the frame, and no two tracks the same one. */
  ghost predicate OneDetectionEach(tracks: seq<STrack>, objects: seq<Object>)
    reads tracks
  {
    && (forall t :: t in tracks ==> t.source < |objects| && t.score == objects[t.source].prob)
    && (forall t, u :: t in tracks && u in tracks && t != u ==> t.source != u.source)
  }

  lemma AllSourced(l: seq<STrack>, w: set<STrack>, objects: seq<Object>)
    requires Sourced(w, objects) && Distinct(l) && forall t :: t in l ==> t in w
    ensures OneDetectionEach(l, objects) && |l| <= |objects|
  {
    var sources := seq(|l|, i requires 0 <= i < |l| reads l => l[i].source as int);
    forall i, j | 0 <= i < j < |l| ensures sources[i] != sources[j] {
      assert l[i] in l && l[j] in l;
    }
    PigeonHole(sources, |objects|);
  }

  /** A track of the first list gives way to an overlapping one of the second that is at least as old. */
  ghost predicate GivesWay(t: STrack, others: seq<STrack>)
    reads t, others
  {
    exists u :: u in others && Distance(t, u) < 0.15 && t.frameId - t.startFrameId <= u.frameId - u.startFrameId
  }

  /** A track of the second list gives way to an overlapping older one of the first. */
  ghost predicate GivesWayToOlder(t: STrack, others: seq<STrack>)
    reads t, others
  {
    exists u :: u in others && Distance(u, t) < 0.15 && u.frameId - u.startFrameId > t.frameId - t.startFrameId
  }

  /** Only tracks that gave way to an overlapping one are missing from the kept lists. */
  ghost predicate OnlyDuplicatesDropped(a: seq<STrack>, b: seq<STrack>, keptA: seq<STrack>, keptB: seq<STrack>)
    reads a, b
  {
    && (forall t :: t in a && t !in keptA ==> GivesWay(t, b))
    && (forall t :: t in b && t !in keptB ==> GivesWayToOlder(t, a))
  }

  lemma PairAsStored(a: seq<STrack>, b: seq<STrack>, o: Overlaps, i: nat, j: nat)
    requires OverlapsOf(o, a, b) && i < |a| && j < |b|
    ensures |o.ageA| == |a| && |o.ageB| == |b| && o.ageA[i] == a[i].frameId - a[i].startFrameId
    ensures |o.ageB| == |b| && o.ageB[j] == b[j].frameId - b[j].startFrameId
    ensures o.Close(i, j) <==> Distance(a[i], b[j]) < 0.15
  {
  }

  lemma DroppedFirst(a: seq<STrack>, b: seq<STrack>, o: Overlaps, i: nat)
    requires OverlapsOf(o, a, b) && i < |a| && |o.ageA| == |a| && |o.ageB| == |b| && o.Dropped(A(i))
    ensures GivesWay(a[i], b)
  {
    var j :| 0 <= j < |b| && o.Close(i, j) && o.ageA[i] <= o.ageB[j];
    hide OverlapsOf, Distance;
    PairAsStored(a, b, o, i, j);
    assert b[j] in b && Distance(a[i], b[j]) < 0.15;
  }

  lemma DroppedSecond(a: seq<STrack>, b: seq<STrack>, o: Overlaps, j: nat)
    requires OverlapsOf(o, a, b) && j < |b| && |o.ageA| == |a| && |o.ageB| == |b| && o.Dropped(B(j))
    ensures GivesWayToOlder(b[j], a)
  {
    var i :| 0 <= i < |a| && o.Close(i, j) && o.ageA[i] > o.ageB[j];
    hide OverlapsOf, Distance;
    PairAsStored(a, b, o, i, j);
    assert a[i] in a && Distance(a[i], b[j]) < 0.15;
  }

  lemma DroppedOverlap(a: seq<STrack>, b: seq<STrack>, o: Overlaps, dropA: seq<bool>, dropB: seq<bool>)
    requires OverlapsOf(o, a, b) && DropFlags(o, dropA, dropB) && |a| == |dropA| && |b| == |dropB|
    ensures OnlyDuplicatesDropped(a, b, Keep(a, dropA), Keep(b, dropB))
  {
    KeepMembers(a, dropA);
    KeepMembers(b, dropB);
    hide Keep, OverlapsOf, GivesWay, GivesWayToOlder;
    forall t | t in a && t !in Keep(a, dropA)
      ensures GivesWay(t, b)
    {
      var i :| 0 <= i < |a| && a[i] == t;
      DroppedFirst(a, b, o, i);
    }
    forall t | t in b && t !in Keep(b, dropB)
      ensures GivesWayToOlder(t, a)
    {
      var j :| 0 <= j < |b| && b[j] == t;
      DroppedSecond(a, b, o, j);
    }
  }

  lemma KeptPair(a: seq<STrack>, b: seq<STrack>, o: Overlaps, dropA: seq<bool>, dropB: seq<bool>, i: nat, j: nat)
    requires OverlapsOf(o, a, b) && DropFlags(o, dropA, dropB)
    requires i < |a| && j < |b| && !dropA[i] && !dropB[j]
    ensures Distance(a[i], b[j]) >= 0.15
  {
    NoClosePairKept(o, i, j);
  }

  lemma KeepIndex(s: seq<STrack>, drop: seq<bool>, t: STrack) returns (i: nat)
    requires |s| == |drop| && t in Keep(s, drop)
    ensures i < |s| && s[i] == t && !drop[i]
  {
    KeepMembers(s, drop);
    i :| 0 <= i < |s| && s[i] == t && !drop[i];
  }

  lemma KeptTracks(a: seq<STrack>, b: seq<STrack>, o: Overlaps, dropA: seq<bool>, dropB: seq<bool>)
    requires |a| == |dropA| && |b| == |dropB| && OverlapsOf(o, a, b) && DropFlags(o, dropA, dropB)
    ensures forall t, u :: t in Keep(a, dropA) && u in Keep(b, dropB) ==> Distance(t, u) >= 0.15
  {
    hide Keep, OverlapsOf, DropFlags, Distance;
    forall t, u | t in Keep(a, dropA) && u in Keep(b, dropB) ensures Distance(t, u) >= 0.15 {
      var i := KeepIndex(a, dropA, t);
      var j := KeepIndex(b, dropB, u);
      KeptPair(a, b, o, dropA, dropB, i, j);
    }
  }

  lemma ConsumedFacts(w: set<STrack>, w': set<STrack>, tracks: seq<STrack>, dets: seq<STrack>, seen: set<STrack>,
                      rest: seq<STrack>)
    requires Consumed(w, w', tracks, dets, seen, rest)
    ensures forall d :: d in rest ==> d in dets && d in w'
    ensures forall d :: d in w && d !in dets ==> d in w'
    ensures forall t :: t in w' ==> t in seen || t in rest || (t in w && t !in dets)
    ensures seen <= w' <= w + Members(tracks) && Distinct(rest) && forall t :: t in w' ==> t in seen || t in w
  {
    assert forall d :: d in rest <==> d in Members(rest);
    assert forall d :: d in dets <==> d in Members(dets);
  }

  /** Tracks under the next free ids extend the numbering. */
  lemma KnownGrows(s: set<STrack>, count: nat, born: seq<STrack>)
    requires Known(s, count)
    requires forall k :: 0 <= k < |born| ==> born[k].trackId == count + 1 + k
    ensures Known(s + Members(born), count + |born|)
  {
    forall t | t in born ensures count < t.trackId <= count + |born| {
      var k :| 0 <= k < |born| && born[k] == t;
    }
  }

  lemma KnownSubset(s: set<STrack>, r: set<STrack>, count: nat)
    requires Known(s, count) && r <= s
    ensures Known(r, count)
  {
  }
}
