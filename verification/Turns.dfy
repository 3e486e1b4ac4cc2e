/** Tracks followed over the frames of a run: how long one that is not seen can still be found again. */
module Turns {
  import opened Tracks
  import opened TrackLists
  import opened Association
  import opened Tracker

  /** A tracker as a frame finds it: the number of the frame, the lists, and the record of who was seen where. */
  datatype Start = Start(frame: nat, confirmed: set<STrack>, unconfirmed: set<STrack>, lost: seq<STrack>,
                         removed: seq<STrack>, shot: Snapshot)

  /** One frame: its start, the lists before de-duplication, and the lists it leaves. */
  datatype Turn = Turn(start: Start, all: seq<STrack>, allLost: seq<STrack>,
                       tracked': seq<STrack>, lost': seq<STrack>, removed': seq<STrack>)

  /** Who is confirmed was seen in the frame before; nobody is on two lists; everybody is on record. */
  ghost predicate Orderly(a: Start) {
    && a.confirmed !! a.unconfirmed && a.confirmed !! Members(a.lost) && a.unconfirmed !! Members(a.lost)
    && a.shot.Keys == a.confirmed + a.unconfirmed + Members(a.lost)
    && forall t :: t in a.confirmed ==> LastFrame(a.shot, t) + 1 == a.frame
  }

  /** The lists changed as a frame changes them. */
  ghost predicate Turned(u: Turn, limit: nat) {
    var a := u.start;
    && Orderly(a)
    && Carried(a.confirmed, a.unconfirmed, a.lost, a.removed, Overdue(a.lost, a.shot, a.frame, limit), u.all, u.allLost,
               u.tracked', u.lost', u.removed')
  }

  lemma TurnedSays(u: Turn, limit: nat)
    requires Turned(u, limit)
    ensures forall t :: t in u.removed' <==>
      || t in u.start.removed || (t in u.start.unconfirmed && t !in u.all)
      || (t in Overdue(u.start.lost, u.start.shot, u.start.frame, limit) && t !in u.all)
    ensures forall t :: t in u.allLost <==>
      (t in u.start.confirmed || t in u.start.lost) && t !in u.all && t !in u.start.removed
    ensures (forall t :: t in u.tracked' ==> t in u.all) && (forall t :: t in u.lost' ==> t in u.allLost)
  {
    var a := u.start;
    CarriedSays(a.confirmed, a.unconfirmed, a.lost, a.removed, Overdue(a.lost, a.shot, a.frame, limit), u.all,
      u.allLost, u.tracked', u.lost', u.removed');
  }

  /** A frame finds what the one before left: the lists are handed on, and waiting does not change when a track was
      seen. */
  ghost predicate Follows(u: Turn, a: Start) {
    && a.frame == u.start.frame + 1 && a.lost == u.lost' && a.removed == u.removed'
    && a.confirmed + a.unconfirmed == Members(u.tracked')
    && forall t :: t in a.lost ==> LastFrame(a.shot, t) == LastFrame(u.start.shot, t)
  }

  ghost predicate Successive(turns: seq<Turn>, limit: nat) {
    && (forall k :: 0 <= k < |turns| ==> turns[k].start.frame == k + 1 && Turned(turns[k], limit))
    && forall k :: 0 < k < |turns| ==> Follows(turns[k - 1], turns[k].start)
  }

  lemma SuccessiveNext(turns: seq<Turn>, u: Turn, limit: nat)
    requires Successive(turns, limit) && Turned(u, limit) && u.start.frame == |turns| + 1
    requires turns != [] ==> Follows(turns[|turns| - 1], u.start)
    ensures Successive(turns + [u], limit)
  {
    hide Turned, Follows;
  }

  /** The track is confirmed as frame i begins, and neither seen nor dropped as a duplicate from then on to frame j. */
  ghost predicate Missed(turns: seq<Turn>, t: STrack, i: nat, j: nat)
    requires i <= j < |turns|
  {
    && t in turns[i].start.confirmed && t !in turns[i].start.removed
    && forall k :: i <= k <= j ==> t !in turns[k].all && (t in turns[k].allLost ==> t in turns[k].lost')
  }

  lemma FirstMiss(u: Turn, limit: nat, t: STrack)
    requires Turned(u, limit) && t in u.start.confirmed && t !in u.start.removed && t !in u.all
    ensures t in u.allLost && t !in u.removed' && LastFrame(u.start.shot, t) + 1 == u.start.frame
  {
    TurnedSays(u, limit);
  }

  lemma NextMiss(u: Turn, v: Turn, limit: nat, t: STrack)
    requires Turned(u, limit) && Turned(v, limit) && Follows(u, v.start) && t !in u.all && t !in v.all
    ensures t in v.allLost <==> t in u.lost' && t !in u.removed'
    ensures t in v.removed' <==> t in u.removed' || (t in u.lost' && v.start.frame - LastFrame(u.start.shot, t) > limit)
    ensures t in u.lost' ==> LastFrame(v.start.shot, t) == LastFrame(u.start.shot, t)
  {
    TurnedSays(u, limit);
    TurnedSays(v, limit);
    assert t !in Members(u.tracked') && t !in v.start.confirmed + v.start.unconfirmed;
  }

  /** A confirmed track that is missed waits among the lost ones, where each next frame can find it again, for exactly
      its patience and one frame more; it is on the removed list exactly in that last frame and ever after. */
  lemma {:induction false} MatchableUntilTimeIsUp(turns: seq<Turn>, limit: nat, t: STrack, i: nat, j: nat)
    requires Successive(turns, limit) && i <= j < |turns| && Missed(turns, t, i, j)
    ensures t in turns[j].lost' <==> j - i <= Patience(limit)
    ensures t in turns[j].removed' <==> j - i >= Patience(limit)
    ensures t in turns[j].lost' ==> LastFrame(turns[j].start.shot, t) == turns[i].start.frame - 1
    decreases j
  {
    hide Turned, Follows;
    if i == j {
      FirstMiss(turns[i], limit, t);
    } else {
      MatchableUntilTimeIsUp(turns, limit, t, i, j - 1);
      assert Follows(turns[j - 1], turns[j].start);
      NextMiss(turns[j - 1], turns[j], limit, t);
      assert t in turns[j].lost' ==> t in turns[j].allLost by {
        LostWasLost(turns[j], limit, t);
      }
    }
  }

  lemma LostWasLost(u: Turn, limit: nat, t: STrack)
    requires Turned(u, limit)
    ensures t in u.lost' ==> t in u.allLost
  {
    assert t in u.lost' ==> t in Members(u.lost');
  }

  // ----- The tracker's part -----

  /** The turn ends with the lists the tracker has now. */
  ghost predicate TurnOf(b: BYTETracker, u: Turn)
    reads b, b.lost
  {
    && u.start.frame == b.frameId && u.tracked' == b.tracked && u.lost' == b.lost && u.removed' == b.removed
    && forall t :: t in b.lost ==> t.frameId == LastFrame(u.start.shot, t)
  }

  /** What the next frame of a tracker will find. */
  ghost function StartOf(b: BYTETracker): Start
    reads b, b.tracked, b.lost
  {
    Start(b.frameId + 1, b.WithActivated(true), b.WithActivated(false), b.lost, b.removed, b.Record())
  }

  lemma StartIsOrderly(b: BYTETracker)
    requires b.Valid()
    ensures Orderly(StartOf(b)) && StartOf(b).confirmed + StartOf(b).unconfirmed == Members(b.tracked)
  {
    assert forall t :: t in b.tracked ==> t in b.tracked + b.lost;
    assert forall t :: t in b.lost ==> t in b.tracked + b.lost;
  }

  /** The next frame follows on a turn that ended with the tracker as it is. */
  lemma FollowsOn(b: BYTETracker, u: Turn)
    requires b.Valid() && TurnOf(b, u)
    ensures Follows(u, StartOf(b))
  {
    StartIsOrderly(b);
    assert forall t :: t in b.lost ==> t in b.tracked + b.lost;
  }

  /** The tracks of a list that are shown: those known before the frame, and in the first frame all. */
  ghost function Recurring(l: seq<STrack>, before: Snapshot, frame: nat): seq<STrack> {
    if l == [] then []
    else
      var last := l[|l| - 1];
      Recurring(l[..|l| - 1], before, frame) + if last in before || frame == 1 then [last] else []
  }

  lemma {:induction false} ConfirmedRecur(l: seq<STrack>, before: Snapshot, frame: nat)
    requires forall t :: t in l ==> (t.activated <==> t in before.Keys || frame == 1)
    ensures Confirmed(l) == Recurring(l, before, frame)
  {
    if l != [] {
      ConfirmedRecur(l[..|l| - 1], before, frame);
    }
  }

  lemma ConfirmedIsRecurring(l: seq<STrack>, tracked: seq<STrack>, a: Start)
    requires Orderly(a) && a.confirmed + a.unconfirmed == Members(tracked)
    requires forall t :: t in l ==> (t.activated <==> t in tracked || t in a.lost || a.frame == 1)
    ensures Confirmed(l) == Recurring(l, a.shot, a.frame)
  {
    assert forall t :: t in a.shot.Keys <==> t in Members(tracked) + Members(a.lost);
    ConfirmedRecur(l, a.shot, a.frame);
  }

  lemma {:induction false} RecurringMembers(l: seq<STrack>, before: Snapshot, frame: nat)
    ensures forall t :: t in Recurring(l, before, frame) <==> t in l && (t in before || frame == 1)
  {
    if l != [] {
      RecurringMembers(l[..|l| - 1], before, frame);
      assert l == l[..|l| - 1] + [l[|l| - 1]];
    }
  }

  /** Every object above both thresholds is one that a track was seen as, and the track is shown, unless it is new in
      a later frame than the first or gives way to an overlapping lost one. */
  ghost predicate NoneForgotten(u: Turn, output: seq<STrack>, objects: seq<Object>, trackThresh: real,
                                highThresh: real)
    reads u.all, u.allLost
  {
    forall i :: 0 <= i < |objects| && objects[i].prob >= trackThresh && objects[i].prob >= highThresh ==>
      exists t :: t in u.all && t.source == i &&
        (t in output || (t !in u.start.shot && u.start.frame > 1) || GivesWay(t, u.allLost))
  }

  lemma AllAccounted(b: BYTETracker, u: Turn, output: seq<STrack>, objects: seq<Object>)
    requires b.ConfidentSeen(u.all, objects) && OnlyDuplicatesDropped(u.all, u.allLost, u.tracked', u.lost')
    requires output == Recurring(u.tracked', u.start.shot, u.start.frame) && u.start.frame >= 1
    ensures NoneForgotten(u, output, objects, b.trackThresh, b.highThresh)
  {
    hide GivesWay;
    RecurringMembers(u.tracked', u.start.shot, u.start.frame);
    forall i | 0 <= i < |objects| && objects[i].prob >= b.trackThresh && objects[i].prob >= b.highThresh
      ensures exists t ::
        t in u.all && t.source == i &&
        (t in output || (t !in u.start.shot && u.start.frame > 1) || GivesWay(t, u.allLost))
    {
      assert Covered(Members(u.all), i);
      var t :| t in Members(u.all) && t.source == i;
      assert t in u.all;
    }
  }
}
