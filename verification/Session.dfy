/** Whole runs: one tracker fed frame after frame, and the display numbers of the tracks it reports. */
module Session {
  import opened Permutations
  import opened Tracks
  import opened TrackLists
  import opened Association
  import opened Tracker
  import opened Turns

  /** What is reported of a track: its id, its display number, its score in percent and the frame. */
  datatype Shown = Shown(trackId: nat, count: nat, score: real, frameId: nat)

  /** `track_id_to_count`: the first `count` numbers, each given to exactly one track id. */
  ghost predicate Numbering(numbers: map<nat, nat>, count: nat) {
    && (forall id :: id in numbers ==> 1 <= numbers[id] <= count) && |numbers| == count
    && (forall id, k :: id in numbers && k in numbers && numbers[id] == numbers[k] ==> id == k)
    && (forall c :: 1 <= c <= count ==> Taken(numbers, c))
  }

  ghost predicate Taken(numbers: map<nat, nat>, c: nat) {
    exists id :: id in numbers && numbers[id] == c
  }

  /** The numbers after some ids have been shown in turn: each new one takes the next number. */
  ghost function Numbered(numbers: map<nat, nat>, ids: seq<nat>): map<nat, nat> {
    if ids == [] then numbers
    else
      var before, id := Numbered(numbers, ids[..|ids| - 1]), ids[|ids| - 1];
      if id in before then before else before[id := |before| + 1]
  }

  /** Exactly the ids shown have been added; nobody's number changes. */
  lemma {:induction false} NumberedKeeps(numbers: map<nat, nat>, ids: seq<nat>)
    ensures forall k :: k in Numbered(numbers, ids) <==> k in numbers || k in ids
    ensures forall k :: k in numbers ==> Numbered(numbers, ids)[k] == numbers[k]
  {
    if ids != [] {
      var rest := ids[..|ids| - 1];
      NumberedKeeps(numbers, rest);
      assert ids == rest + [ids[|ids| - 1]];
    }
  }

  function TrackIds(shown: seq<Shown>): seq<nat> {
    seq(|shown|, i requires 0 <= i < |shown| => shown[i].trackId)
  }

  /** `track_id_to_last_detected` after some entries. */
  ghost function Redetected(last: map<nat, nat>, shown: seq<Shown>): map<nat, nat> {
    if shown == [] then last
    else
      var s := shown[|shown| - 1];
      Redetected(last, shown[..|shown| - 1])[s.trackId := s.frameId]
  }

  ghost predicate Shows(s: Shown, t: STrack, numbers: map<nat, nat>)
    reads t
  {
    && s.trackId == t.trackId && s.score == t.score * 100.0 && s.frameId == t.frameId
    && s.trackId in numbers && s.count == numbers[s.trackId]
  }

  /** Tracks just seen, no two of them with the same id or as the same object. */
  ghost predicate Presentable(output: seq<STrack>, objects: seq<Object>, frame: nat)
    reads output
  {
    && |output| <= |objects| && OneDetectionEach(output, objects)
    && (forall i :: 0 <= i < |output| ==> output[i].frameId == frame)
    && forall i, j :: 0 <= i < j < |output| ==> output[i].trackId != output[j].trackId
  }

  ghost predicate Covers(footprint: set<object>, l: seq<STrack>) {
    forall k :: 0 <= k < |l| ==> l[k] in footprint
  }

  lemma MembersCovered(footprint: set<object>, tracks: set<STrack>, l: seq<STrack>)
    requires Members(l) <= tracks && forall t :: t in tracks ==> t in footprint
    ensures Covers(footprint, l)
  {
    assert forall k :: 0 <= k < |l| ==> l[k] in Members(l);
  }

  class DisplaySession {
    const tracker: BYTETracker
    var count: nat
    var numbers: map<nat, nat>
    var lastDetected: map<nat, nat>

    ghost predicate Valid()
      reads this, tracker, tracker.tracked, tracker.lost, tracker.removed
    {
      tracker.Valid() && Numbering(numbers, count)
    }

    constructor (frameRate: nat, trackBuffer: nat, trackThresh: real, highThresh: real, matchThresh: real)
      ensures Valid() && fresh(tracker) && tracker.frameId == 0 && numbers == map[]
      ensures tracker.tracked == tracker.lost == tracker.removed == []
      ensures tracker.matchThresh == matchThresh && tracker.maxTimeLost == frameRate * trackBuffer / 30
      ensures tracker.trackThresh == trackThresh && tracker.highThresh == highThresh
    {
      tracker := new BYTETracker(frameRate, trackBuffer, trackThresh, highThresh, matchThresh);
      count, numbers, lastDetected := 0, map[], map[];
    }

    /** Lines 252 to 256 of video_server.cpp: a new id takes the next number, a known id keeps its own. */
    method NumberOf(id: nat) returns (c: nat)
      requires Numbering(numbers, count)
      modifies this`count, this`numbers
      ensures Numbering(numbers, count)
      ensures id in numbers && c == numbers[id]
      ensures numbers == if id in old(numbers) then old(numbers) else old(numbers)[id := |old(numbers)| + 1]
    {
      ghost var before := numbers;
      if id !in numbers {
        count := count + 1;
        numbers := numbers[id := count];
        forall n | 1 <= n <= count ensures Taken(numbers, n) {
          if n < count {
            assert Taken(before, n);
            var k :| k in before && before[k] == n;
            assert k in numbers && numbers[k] == n;
          } else {
            assert id in numbers && numbers[id] == n;
          }
        }
      }
      c := numbers[id];
    }

    /** Lines 243 to 261 of video_server.cpp: one entry for each track of the output. */
    method Report(output: seq<STrack>, ghost objects: seq<Object>, ghost frame: nat) returns (shown: seq<Shown>)
      requires Numbering(numbers, count) && Presentable(output, objects, frame)
      modifies this`count, this`numbers, this`lastDetected
      ensures Numbering(numbers, count) && numbers == Numbered(old(numbers), TrackIds(shown))
      ensures lastDetected == Redetected(old(lastDetected), shown)
      ensures |shown| == |output| && forall i :: 0 <= i < |shown| ==> Shows(shown[i], output[i], numbers)
      ensures forall i, j :: 0 <= i < j < |shown| ==> shown[i].trackId != shown[j].trackId
    {
      shown := [];
      hide Numbering, Numbered, Redetected, Shows, TrackIds, Presentable;
      ReportedNothing(numbers, lastDetected);
      for i := 0 to |output|
        invariant Numbering(numbers, count) && |shown| == i && numbers == Numbered(old(numbers), TrackIds(shown))
        invariant lastDetected == Redetected(old(lastDetected), shown)
        invariant forall j :: 0 <= j < i ==> Shows(shown[j], output[j], numbers)
      {
        var o := output[i];
        ghost var before := numbers;
        var c := NumberOf(o.trackId);
        forall j | 0 <= j < i ensures Shows(shown[j], output[j], numbers) {
          StillShows(shown[j], output[j], before, numbers);
        }
        var s := Shown(o.trackId, c, o.score * 100.0, o.frameId);
        ReportedNext(old(numbers), old(lastDetected), shown, s, o, numbers);
        shown := shown + [s];
        lastDetected := lastDetected[o.trackId := o.frameId];
      }
      IdsShown(shown, output, objects, frame);
    }

    /** What a frame has come to: its output is the list of the confirmed tracks, in the tracker's order, which are
        those known before, and in the first frame all. */
    ghost predicate FrameDone(turn: Turn, output: seq<STrack>, objects: seq<Object>)
      reads tracker, tracker.tracked, tracker.lost, tracker.removed, output, turn.all, turn.allLost
    {
      && tracker.Valid() && TurnOf(tracker, turn) && Turned(turn, tracker.maxTimeLost)
      && output == Confirmed(tracker.tracked) == Recurring(turn.tracked', turn.start.shot, turn.start.frame)
      && Presentable(output, objects, tracker.frameId)
      && NoneForgotten(turn, output, objects, tracker.trackThresh, tracker.highThresh)
    }

    /** The same, as a fact about the objects it depends on, which do not include this one. */
    ghost predicate DoneOn(footprint: set<object>, turn: Turn, output: seq<STrack>, objects: seq<Object>)
      reads footprint
    {
      && tracker in footprint && Covers(footprint, tracker.tracked) && Covers(footprint, tracker.lost)
      && Covers(footprint, tracker.removed) && Covers(footprint, output)
      && Covers(footprint, turn.all) && Covers(footprint, turn.allLost)
      && FrameDone(turn, output, objects)
    }

    lemma DoneApart(turn: Turn, output: seq<STrack>, objects: seq<Object>) returns (footprint: set<object>)
      requires FrameDone(turn, output, objects)
      ensures DoneOn(footprint, turn, output, objects) && this !in footprint
      ensures Presentable(output, objects, tracker.frameId)
    {
      var tracks: set<STrack> := Members(tracker.tracked) + Members(tracker.lost) + Members(tracker.removed)
        + Members(output) + Members(turn.all) + Members(turn.allLost);
      footprint := set t: STrack | t in tracks :: t as object;
      footprint := footprint + {tracker};
      hide FrameDone;
      assert forall t :: t in tracks ==> t in footprint;
      MembersCovered(footprint, tracks, tracker.tracked);
      MembersCovered(footprint, tracks, tracker.lost);
      MembersCovered(footprint, tracks, tracker.removed);
      MembersCovered(footprint, tracks, output);
      MembersCovered(footprint, tracks, turn.all);
      MembersCovered(footprint, tracks, turn.allLost);
    }

    lemma DoneHere(footprint: set<object>, turn: Turn, output: seq<STrack>, objects: seq<Object>)
      requires DoneOn(footprint, turn, output, objects) && Numbering(numbers, count)
      ensures FrameDone(turn, output, objects) && Valid()
    {
    }

    /** Line 243 of video_server.cpp: the tracker's frame, with a record of what it has done to the lists. */
    method Track(objects: seq<Object>) returns (ok: bool, output: seq<STrack>, ghost turn: Turn)
      requires tracker.Valid()
      modifies tracker, tracker.tracked, tracker.lost
      ensures Moderate(tracker.matchThresh) ==> ok
      ensures tracker.frameId == old(tracker.frameId) + 1
      ensures forall t :: t in old(tracker.tracked) || t in old(tracker.lost) ==> t.trackId == old(t.trackId)
      ensures ok ==> turn.start == old(StartOf(tracker)) && FrameDone(turn, output, objects)
      ensures ok ==> forall t :: t in tracker.tracked || t in tracker.lost ==>
        t in old(tracker.tracked) || t in old(tracker.lost) || fresh(t)
    {
      ghost var start, tracked := StartOf(tracker), tracker.tracked;
      StartIsOrderly(tracker);
      hide *;
      StartParts(start);
      ghost var all, allLost, plan;
      ok, output, all, allLost, plan := tracker.Update(objects);
      turn := Turn(start, all, allLost, tracker.tracked, tracker.lost, tracker.removed);
      if ok {
        ConfirmedIsRecurring(tracker.tracked, tracked, start);
        TurnMade(turn);
        AllAccounted(tracker, turn, output, objects);
        OutputFacts(output, objects);
        Done(turn, output, objects);
      }
    }

    lemma Done(turn: Turn, output: seq<STrack>, objects: seq<Object>)
      requires tracker.Valid() && TurnOf(tracker, turn) && Turned(turn, tracker.maxTimeLost)
      requires output == Confirmed(tracker.tracked) == Recurring(turn.tracked', turn.start.shot, turn.start.frame)
      requires Presentable(output, objects, tracker.frameId)
      requires NoneForgotten(turn, output, objects, tracker.trackThresh, tracker.highThresh)
      ensures FrameDone(turn, output, objects)
    {
    }

    lemma StartParts(a: Start)
      requires a == StartOf(tracker)
      ensures a.frame == tracker.frameId + 1 && a.lost == tracker.lost && a.removed == tracker.removed
      ensures a.confirmed == tracker.WithActivated(true) && a.unconfirmed == tracker.WithActivated(false)
      ensures a.shot == tracker.Record()
    {
    }

    /** One frame: the tracker's output, entry by entry, with one display number per track. The turn records what the
        frame has done to the tracker's lists. */
    method ShowFrame(objects: seq<Object>)
      returns (ok: bool, shown: seq<Shown>, ghost output: seq<STrack>, ghost turn: Turn)
      requires Valid()
      modifies this`count, this`numbers, this`lastDetected, tracker, tracker.tracked, tracker.lost
      ensures Moderate(tracker.matchThresh) ==> ok
      ensures tracker.frameId == old(tracker.frameId) + 1
      ensures forall t :: t in old(tracker.tracked) || t in old(tracker.lost) ==> t.trackId == old(t.trackId)
      ensures !ok ==> shown == [] && numbers == old(numbers) && lastDetected == old(lastDetected)
      ensures ok ==> Valid() && turn.start == old(StartOf(tracker)) && FrameDone(turn, output, objects)
      ensures ok ==> |shown| == |output| && forall i :: 0 <= i < |shown| ==> Shows(shown[i], output[i], numbers)
      ensures ok ==> forall i, j :: 0 <= i < j < |shown| ==> shown[i].trackId != shown[j].trackId
      ensures ok ==> numbers == Numbered(old(numbers), TrackIds(shown))
      ensures ok ==> lastDetected == Redetected(old(lastDetected), shown)
      ensures ok ==> forall t :: t in tracker.tracked || t in tracker.lost ==>
        t in old(tracker.tracked) || t in old(tracker.lost) || fresh(t)
    {
      ValidParts();
      hide *;
      var out;
      ok, out, turn := Track(objects);
      output, shown := out, [];
      if !ok {
        return;
      }
      ghost var footprint := DoneApart(turn, output, objects);
      shown := Report(out, objects, tracker.frameId);
      DoneHere(footprint, turn, output, objects);
    }

    lemma ValidParts()
      requires Valid()
      ensures tracker.Valid() && Numbering(numbers, count)
    {
    }

    lemma OutputFacts(output: seq<STrack>, objects: seq<Object>)
      requires tracker.Valid() && output == Confirmed(tracker.tracked)
      requires OneDetectionEach(tracker.tracked, objects) && |tracker.tracked| <= |objects|
      ensures Presentable(output, objects, tracker.frameId)
    {
      ConfirmedMembers(tracker.tracked);
      forall i, j | 0 <= i < j < |output| ensures output[i].trackId != output[j].trackId {
        assert output[i] in output && output[j] in output;
        assert output[i] in tracker.tracked + tracker.lost + tracker.removed;
        assert output[j] in tracker.tracked + tracker.lost + tracker.removed;
      }
      forall i | 0 <= i < |output| ensures output[i].frameId == tracker.frameId {
        assert output[i] in output;
      }
    }

    lemma TurnMade(u: Turn)
      requires u.start.frame == tracker.frameId && Orderly(u.start)
      requires u.tracked' == tracker.tracked && u.lost' == tracker.lost && u.removed' == tracker.removed
      requires forall t :: t in tracker.lost ==> t.frameId == LastFrame(u.start.shot, t)
      requires var a := u.start;
        Carried(a.confirmed, a.unconfirmed, a.lost, a.removed, Overdue(a.lost, a.shot, a.frame, tracker.maxTimeLost),
                u.all, u.allLost, u.tracked', u.lost', u.removed')
      ensures TurnOf(tracker, u) && Turned(u, tracker.maxTimeLost)
    {
    }

    lemma IdsShown(shown: seq<Shown>, output: seq<STrack>, objects: seq<Object>, frame: nat)
      requires |shown| == |output| && forall i :: 0 <= i < |shown| ==> Shows(shown[i], output[i], numbers)
      requires Presentable(output, objects, frame)
      ensures forall i, j :: 0 <= i < j < |shown| ==> shown[i].trackId != shown[j].trackId
    {
    }
  }

  lemma ReportedNothing(numbers: map<nat, nat>, last: map<nat, nat>)
    ensures Numbered(numbers, TrackIds([])) == numbers && Redetected(last, []) == last
  {
  }

  lemma StillShows(s: Shown, t: STrack, before: map<nat, nat>, numbers: map<nat, nat>)
    requires Shows(s, t, before) && forall k :: k in before ==> k in numbers && numbers[k] == before[k]
    ensures Shows(s, t, numbers)
  {
  }

  lemma ReportedNext(first: map<nat, nat>, last: map<nat, nat>, shown: seq<Shown>, s: Shown, t: STrack,
                     numbers: map<nat, nat>)
    requires s == Shown(t.trackId, s.count, t.score * 100.0, t.frameId)
    requires s.trackId in numbers && s.count == numbers[s.trackId]
    ensures Shows(s, t, numbers)
    ensures Redetected(last, shown + [s]) == Redetected(last, shown)[s.trackId := s.frameId]
    ensures var before := Numbered(first, TrackIds(shown));
      Numbered(first, TrackIds(shown + [s])) ==
      if s.trackId in before then before else before[s.trackId := |before| + 1]
  {
    var ids := TrackIds(shown);
    assert TrackIds(shown + [s]) == ids + [s.trackId] && (ids + [s.trackId])[..|ids|] == ids;
    assert (shown + [s])[..|shown|] == shown;
  }

  // ----- Whole runs -----

  function AllIds(log: seq<seq<Shown>>): seq<nat> {
    if log == [] then [] else AllIds(log[..|log| - 1]) + TrackIds(log[|log| - 1])
  }

  lemma {:induction false} NumberedConcat(numbers: map<nat, nat>, a: seq<nat>, b: seq<nat>)
    ensures Numbered(numbers, a + b) == Numbered(Numbered(numbers, a), b)
  {
    if b == [] {
      assert a + b == a;
    } else {
      var rest := b[..|b| - 1];
      assert (a + b)[..|a + b| - 1] == a + rest;
      NumberedConcat(numbers, a, rest);
    }
  }

  /** The entries stand for different objects of the frame, and carry their scores. */
  ghost predicate SeenAs(shown: seq<Shown>, objects: seq<Object>, sources: seq<nat>) {
    && |sources| == |shown| && Distinct(sources)
    && forall i :: 0 <= i < |shown| ==> sources[i] < |objects| && shown[i].score == objects[sources[i]].prob * 100.0
  }

  /** The ids some tracks have. */
  ghost predicate HaveIds(ids: map<STrack, nat>)
    reads ids.Keys
  {
    forall t :: t in ids ==> t.trackId == ids[t]
  }

  ghost function IdsOf(output: seq<STrack>): map<STrack, nat>
    reads output
  {
    map t | t in output :: t.trackId
  }

  /** The entries are those of some tracks, in their order. */
  ghost predicate SameIds(shown: seq<Shown>, output: seq<STrack>, ids: map<STrack, nat>) {
    && |shown| == |output|
    && forall i :: 0 <= i < |shown| ==> output[i] in ids && shown[i].trackId == ids[output[i]]
  }

  /** The entries are of the given frame and carry the numbers of their ids. */
  ghost predicate Listed(shown: seq<Shown>, frame: nat, numbers: map<nat, nat>) {
    forall i :: 0 <= i < |shown| ==>
      shown[i].frameId == frame && shown[i].trackId in numbers && shown[i].count == numbers[shown[i].trackId]
  }

  lemma StillListed(log: seq<seq<Shown>>, before: map<nat, nat>, ids: seq<nat>)
    requires forall g :: 0 <= g < |log| ==> Listed(log[g], g + 1, before)
    ensures forall g :: 0 <= g < |log| ==> Listed(log[g], g + 1, Numbered(before, ids))
  {
    NumberedKeeps(before, ids);
    hide Numbered;
    forall g | 0 <= g < |log| ensures Listed(log[g], g + 1, Numbered(before, ids)) {
      assert Listed(log[g], g + 1, before);
    }
  }

  ghost predicate Confident(o: Object, trackThresh: real, highThresh: real) {
    o.prob >= trackThresh && o.prob >= highThresh
  }

  /** Every object above both thresholds is among the given ones. */
  ghost predicate AllIn(objects: seq<Object>, trackThresh: real, highThresh: real, sources: seq<nat>) {
    forall i :: 0 <= i < |objects| && Confident(objects[i], trackThresh, highThresh) ==> i in sources
  }

  ghost function SourcesOf(output: seq<STrack>): (sources: seq<nat>)
    reads output
    ensures |sources| == |output| && forall i :: 0 <= i < |output| ==> sources[i] == output[i].source
  {
    seq(|output|, i requires 0 <= i < |output| reads output => output[i].source)
  }

  lemma ShownAsSeen(shown: seq<Shown>, output: seq<STrack>, objects: seq<Object>, frame: nat, numbers: map<nat, nat>)
    requires Presentable(output, objects, frame)
    requires |shown| == |output| && forall i :: 0 <= i < |shown| ==> Shows(shown[i], output[i], numbers)
    ensures SeenAs(shown, objects, SourcesOf(output)) && Listed(shown, frame, numbers)
    ensures SameIds(shown, output, IdsOf(output)) && HaveIds(IdsOf(output))
  {
    var sources := SourcesOf(output);
    forall i, j | 0 <= i < j < |sources| ensures sources[i] != sources[j] {
      assert output[i] in output && output[j] in output && output[i].trackId != output[j].trackId;
    }
    forall i | 0 <= i < |shown| ensures sources[i] < |objects| && shown[i].score == objects[sources[i]].prob * 100.0 {
      assert output[i] in output;
    }
    assert forall i :: 0 <= i < |shown| ==> output[i] in output;
  }

  /** In the first frame nobody is lost yet, so every object above both thresholds is shown. */
  lemma FirstShown(u: Turn, limit: nat, output: seq<STrack>, objects: seq<Object>, trackThresh: real, highThresh: real)
    requires Turned(u, limit) && u.start.frame == 1 && u.start.confirmed == {} && u.start.lost == []
    requires NoneForgotten(u, output, objects, trackThresh, highThresh)
    ensures AllIn(objects, trackThresh, highThresh, SourcesOf(output))
  {
    assert Members(u.allLost) == {};
    assert forall t :: t !in u.allLost by {
      assert forall t :: t in u.allLost ==> t in Members(u.allLost);
    }
    forall i | 0 <= i < |objects| && Confident(objects[i], trackThresh, highThresh) ensures i in SourcesOf(output) {
      var t :| t in u.all && t.source == i &&
        (t in output || (t !in u.start.shot && u.start.frame > 1) || GivesWay(t, u.allLost));
      var k :| 0 <= k < |output| && output[k] == t;
      assert SourcesOf(output)[k] == i;
    }
  }

  lemma NumberedNext(log: seq<seq<Shown>>, shown: seq<Shown>)
    ensures Numbered(map[], AllIds(log + [shown])) == Numbered(Numbered(map[], AllIds(log)), TrackIds(shown))
  {
    assert (log + [shown])[..|log|] == log;
    NumberedConcat(map[], AllIds(log), TrackIds(shown));
  }

  /** The log of a run so far: who is shown in each frame, as which of its objects, and under which number. */
  ghost predicate Logged(log: seq<seq<Shown>>, frames: seq<seq<Object>>, turns: seq<Turn>, outputs: seq<seq<STrack>>,
                         sources: seq<seq<nat>>, ids: map<STrack, nat>, numbers: map<nat, nat>, limit: nat) {
    && |log| == |turns| == |outputs| == |sources| <= |frames|
    && Successive(turns, limit)
    && (forall f :: 0 <= f < |log| ==> outputs[f] == Recurring(turns[f].tracked', turns[f].start.shot, f + 1))
    && (forall f :: 0 <= f < |log| ==> SameIds(log[f], outputs[f], ids))
    && (forall f :: 0 <= f < |log| ==> Listed(log[f], f + 1, numbers))
    && (forall f :: 0 <= f < |log| ==> SeenAs(log[f], frames[f], sources[f]))
    && numbers == Numbered(map[], AllIds(log))
  }

  lemma LoggedSizes(log: seq<seq<Shown>>, frames: seq<seq<Object>>, turns: seq<Turn>, outputs: seq<seq<STrack>>,
                    sources: seq<seq<nat>>, ids: map<STrack, nat>, numbers: map<nat, nat>, limit: nat)
    requires Logged(log, frames, turns, outputs, sources, ids, numbers, limit)
    ensures |log| == |turns| == |outputs| == |sources| <= |frames|
  {
  }

  lemma RecurringNext(turns: seq<Turn>, outputs: seq<seq<STrack>>, turn: Turn, output: seq<STrack>)
    requires |turns| == |outputs|
    requires forall f :: 0 <= f < |turns| ==>
      outputs[f] == Recurring(turns[f].tracked', turns[f].start.shot, f + 1)
    requires output == Recurring(turn.tracked', turn.start.shot, |turns| + 1)
    ensures var turns', outputs' := turns + [turn], outputs + [output];
      forall f :: 0 <= f < |turns'| ==> outputs'[f] == Recurring(turns'[f].tracked', turns'[f].start.shot, f + 1)
  {
    hide Recurring;
  }

  lemma SameNext(log: seq<seq<Shown>>, outputs: seq<seq<STrack>>, ids: map<STrack, nat>, more: map<STrack, nat>,
                 shown: seq<Shown>, output: seq<STrack>)
    requires |log| == |outputs| && forall f :: 0 <= f < |log| ==> SameIds(log[f], outputs[f], ids)
    requires SameIds(shown, output, more) && forall t :: t in ids && t in more ==> more[t] == ids[t]
    ensures var log', outputs' := log + [shown], outputs + [output];
      forall f :: 0 <= f < |log'| ==> SameIds(log'[f], outputs'[f], ids + more)
  {
    forall f | 0 <= f < |log| ensures SameIds(log[f], outputs[f], ids + more) {
      assert SameIds(log[f], outputs[f], ids);
    }
    assert SameIds(shown, output, ids + more);
    hide SameIds;
  }

  lemma ListedNext(log: seq<seq<Shown>>, before: map<nat, nat>, shown: seq<Shown>)
    requires forall f :: 0 <= f < |log| ==> Listed(log[f], f + 1, before)
    requires Listed(shown, |log| + 1, Numbered(before, TrackIds(shown)))
    ensures var log' := log + [shown];
      forall f :: 0 <= f < |log'| ==> Listed(log'[f], f + 1, Numbered(before, TrackIds(shown)))
  {
    StillListed(log, before, TrackIds(shown));
    hide Listed, Numbered, TrackIds;
  }

  lemma SeenNext(log: seq<seq<Shown>>, frames: seq<seq<Object>>, sources: seq<seq<nat>>, shown: seq<Shown>,
                 source: seq<nat>)
    requires |log| == |sources| < |frames| && forall f :: 0 <= f < |log| ==> SeenAs(log[f], frames[f], sources[f])
    requires SeenAs(shown, frames[|log|], source)
    ensures var log', sources' := log + [shown], sources + [source];
      forall f :: 0 <= f < |log'| ==> SeenAs(log'[f], frames[f], sources'[f])
  {
    hide SeenAs;
  }

  lemma LoggedNext(log: seq<seq<Shown>>, frames: seq<seq<Object>>, turns: seq<Turn>, outputs: seq<seq<STrack>>,
                   sources: seq<seq<nat>>, ids: map<STrack, nat>, before: map<nat, nat>, limit: nat,
                   shown: seq<Shown>, turn: Turn, output: seq<STrack>, source: seq<nat>, more: map<STrack, nat>)
    requires Logged(log, frames, turns, outputs, sources, ids, before, limit) && |log| < |frames|
    requires Turned(turn, limit) && turn.start.frame == |turns| + 1
    requires turns != [] ==> Follows(turns[|turns| - 1], turn.start)
    requires output == Recurring(turn.tracked', turn.start.shot, turn.start.frame)
    requires SameIds(shown, output, more) && forall t :: t in ids && t in more ==> more[t] == ids[t]
    requires var numbers := Numbered(before, TrackIds(shown)); Listed(shown, |log| + 1, numbers)
    requires SeenAs(shown, frames[|log|], source)
    ensures Logged(log + [shown], frames, turns + [turn], outputs + [output], sources + [source], ids + more,
                   Numbered(before, TrackIds(shown)), limit)
  {
    hide Turned, Follows, Successive, Listed, SeenAs, SameIds, Numbered, Recurring, AllIds, TrackIds;
    RecurringNext(turns, outputs, turn, output);
    SameNext(log, outputs, ids, more, shown, output);
    ListedNext(log, before, shown);
    SeenNext(log, frames, sources, shown, source);
    NumberedNext(log, shown);
    SuccessiveNext(turns, turn, limit);
  }

  lemma RunBegins(frames: seq<seq<Object>>, limit: nat)
    ensures Logged([], frames, [], [], [], map[], map[], limit)
  {
  }

  lemma RunGoesOn(session: DisplaySession, turns: seq<Turn>)
    requires session.Valid()
    requires if turns == [] then session.tracker.tracked == session.tracker.lost == []
             else TurnOf(session.tracker, turns[|turns| - 1])
    ensures StartOf(session.tracker).frame == session.tracker.frameId + 1
    ensures if turns == [] then StartOf(session.tracker).confirmed == {} && StartOf(session.tracker).lost == []
            else Follows(turns[|turns| - 1], StartOf(session.tracker))
  {
    if turns != [] {
      FollowsOn(session.tracker, turns[|turns| - 1]);
    }
  }

  lemma FrameEnds(session: DisplaySession, turn: Turn, shown: seq<Shown>, output: seq<STrack>, objects: seq<Object>)
    returns (ids: map<STrack, nat>, sources: seq<nat>)
    requires session.FrameDone(turn, output, objects)
    requires |shown| == |output| && forall i :: 0 <= i < |shown| ==> Shows(shown[i], output[i], session.numbers)
    ensures TurnOf(session.tracker, turn) && Turned(turn, session.tracker.maxTimeLost)
    ensures output == Recurring(turn.tracked', turn.start.shot, turn.start.frame)
    ensures SeenAs(shown, objects, sources) && SameIds(shown, output, ids)
    ensures forall t :: t in ids ==> t.trackId == ids[t]
    ensures Listed(shown, session.tracker.frameId, session.numbers)
    ensures turn.start.frame == 1 && turn.start.confirmed == {} && turn.start.lost == [] ==>
      AllIn(objects, session.tracker.trackThresh, session.tracker.highThresh, sources)
  {
    ids, sources := IdsOf(output), SourcesOf(output);
    ShownAsSeen(shown, output, objects, session.tracker.frameId, session.numbers);
    if turn.start.frame == 1 && turn.start.confirmed == {} && turn.start.lost == [] {
      FirstShown(turn, session.tracker.maxTimeLost, output, objects, session.tracker.trackThresh,
        session.tracker.highThresh);
    }
  }

  /** A session between two frames: the record of the frames so far is that of its tracker and of its numbers. */
  ghost predicate Underway(session: DisplaySession, log: seq<seq<Shown>>, frames: seq<seq<Object>>, turns: seq<Turn>,
                           outputs: seq<seq<STrack>>, sources: seq<seq<nat>>, ids: map<STrack, nat>)
    reads session, session.tracker, session.tracker.tracked, session.tracker.lost, session.tracker.removed
  {
    && session.Valid() && session.tracker.frameId == |log|
    && Logged(log, frames, turns, outputs, sources, ids, session.numbers, session.tracker.maxTimeLost)
    && (if turns == [] then session.tracker.tracked == session.tracker.lost == []
        else TurnOf(session.tracker, turns[|turns| - 1]))
    && (log != [] ==> AllIn(frames[0], session.tracker.trackThresh, session.tracker.highThresh, sources[0]))
  }

  lemma UnderwaySays(session: DisplaySession, log: seq<seq<Shown>>, frames: seq<seq<Object>>, turns: seq<Turn>,
                     outputs: seq<seq<STrack>>, sources: seq<seq<nat>>, ids: map<STrack, nat>)
    requires Underway(session, log, frames, turns, outputs, sources, ids)
    ensures session.Valid() && session.tracker.frameId == |log| == |turns| == |outputs| == |sources| <= |frames|
    ensures Logged(log, frames, turns, outputs, sources, ids, session.numbers, session.tracker.maxTimeLost)
    ensures log != [] ==> AllIn(frames[0], session.tracker.trackThresh, session.tracker.highThresh, sources[0])
    ensures if turns == [] then session.tracker.tracked == session.tracker.lost == []
            else TurnOf(session.tracker, turns[|turns| - 1])
  {
    hide Logged;
    LoggedSizes(log, frames, turns, outputs, sources, ids, session.numbers, session.tracker.maxTimeLost);
  }

  lemma UnderwayMade(session: DisplaySession, log: seq<seq<Shown>>, frames: seq<seq<Object>>, turns: seq<Turn>,
                     outputs: seq<seq<STrack>>, sources: seq<seq<nat>>, ids: map<STrack, nat>)
    requires session.Valid() && session.tracker.frameId == |log|
    requires Logged(log, frames, turns, outputs, sources, ids, session.numbers, session.tracker.maxTimeLost)
    requires turns != [] && TurnOf(session.tracker, turns[|turns| - 1]) && log != [] && sources != [] && frames != []
    requires AllIn(frames[0], session.tracker.trackThresh, session.tracker.highThresh, sources[0])
    ensures Underway(session, log, frames, turns, outputs, sources, ids)
  {
    hide Logged;
  }

  /** One turn of the loop over the frames. */
  method RunFrame(session: DisplaySession, frames: seq<seq<Object>>, log: seq<seq<Shown>>, ghost turns: seq<Turn>,
                  ghost outputs: seq<seq<STrack>>, ghost sources: seq<seq<nat>>, ghost ids: map<STrack, nat>)
    returns (ok: bool, shown: seq<Shown>, ghost turn: Turn, ghost output: seq<STrack>, ghost source: seq<nat>,
             ghost more: map<STrack, nat>)
    requires Underway(session, log, frames, turns, outputs, sources, ids) && |log| < |frames|
    requires forall t :: t in ids ==> t.trackId == ids[t]
    modifies session, session.tracker, session.tracker.tracked, session.tracker.lost
    ensures Moderate(session.tracker.matchThresh) ==> ok
    ensures ok ==>
      Underway(session, log + [shown], frames, turns + [turn], outputs + [output], sources + [source], ids + more)
    ensures ok ==> forall t :: t in ids + more ==> t.trackId == (ids + more)[t]
    ensures ok ==> forall t :: t in session.tracker.tracked || t in session.tracker.lost ==>
      t in old(session.tracker.tracked) || t in old(session.tracker.lost) || fresh(t)
  {
    hide *;
    source, more := [], map[];
    UnderwaySays(session, log, frames, turns, outputs, sources, ids);
    RunGoesOn(session, turns);
    ghost var numbers := session.numbers;
    ok, shown, output, turn := session.ShowFrame(frames[|log|]);
    if !ok {
      return;
    }
    more, source := FrameEnds(session, turn, shown, output, frames[|log|]);
    LoggedNext(log, frames, turns, outputs, sources, ids, numbers, session.tracker.maxTimeLost, shown, turn, output,
      source, more);
    UnderwayMade(session, log + [shown], frames, turns + [turn], outputs + [output], sources + [source], ids + more);
  }

  lemma RunEnds(session: DisplaySession, log: seq<seq<Shown>>, frames: seq<seq<Object>>, turns: seq<Turn>,
                outputs: seq<seq<STrack>>, sources: seq<seq<nat>>, ids: map<STrack, nat>)
    requires Underway(session, log, frames, turns, outputs, sources, ids) && |log| == |frames|
    requires forall t :: t in ids ==> t.trackId == ids[t]
    ensures session.Valid() && session.tracker.frameId == |frames| && HaveIds(ids)
    ensures Logged(log, frames, turns, outputs, sources, ids, session.numbers, session.tracker.maxTimeLost)
    ensures |log| == |turns| == |outputs| == |sources| == |frames|
    ensures forall id, k :: id in session.numbers && k in session.numbers ==>
      (session.numbers[id] == session.numbers[k] <==> id == k)
    ensures frames != [] ==> AllIn(frames[0], session.tracker.trackThresh, session.tracker.highThresh, sources[0])
  {
    hide Underway, Logged;
    UnderwaySays(session, log, frames, turns, outputs, sources, ids);
  }

  lemma RunStarts(session: DisplaySession, frames: seq<seq<Object>>)
    requires session.Valid() && session.tracker.frameId == 0 && session.numbers == map[]
    requires session.tracker.tracked == session.tracker.lost == []
    ensures Underway(session, [], frames, [], [], [], map[])
  {
    RunBegins(frames, session.tracker.maxTimeLost);
    hide Logged;
  }

  /** Any run of frames: with a moderate limit no assignment ever throws and every reachable state is valid. The log of
      each frame is the list of the confirmed tracks, in the tracker's order, each with the number its id has for the
      whole run; ids are numbered as they first appear, and no two share a number. */
  method Run(frameRate: nat, trackBuffer: nat, trackThresh: real, highThresh: real, matchThresh: real,
             frames: seq<seq<Object>>)
    returns (ok: bool, session: DisplaySession, log: seq<seq<Shown>>, ghost turns: seq<Turn>,
             ghost outputs: seq<seq<STrack>>, ghost sources: seq<seq<nat>>, ghost ids: map<STrack, nat>)
    ensures Moderate(matchThresh) ==> ok
    ensures ok ==> session.Valid() && session.tracker.frameId == |frames|
    ensures ok ==> |log| == |turns| == |outputs| == |sources| == |frames|
    ensures ok ==> Logged(log, frames, turns, outputs, sources, ids, session.numbers, frameRate * trackBuffer / 30)
    ensures ok ==> HaveIds(ids)
    ensures ok ==> forall id, k :: id in session.numbers && k in session.numbers ==>
      (session.numbers[id] == session.numbers[k] <==> id == k)
    ensures ok && frames != [] ==> AllIn(frames[0], trackThresh, highThresh, sources[0])
  {
    session := new DisplaySession(frameRate, trackBuffer, trackThresh, highThresh, matchThresh);
    log, turns, outputs, sources, ids, ok := [], [], [], [], map[], true;
    hide *;
    RunStarts(session, frames);
    for f := 0 to |frames|
      invariant ok && fresh(session) && fresh(session.tracker) && session.tracker.matchThresh == matchThresh
      invariant session.tracker.trackThresh == trackThresh && session.tracker.highThresh == highThresh
      invariant session.tracker.maxTimeLost == frameRate * trackBuffer / 30 && |log| == f
      invariant forall t :: t in session.tracker.tracked || t in session.tracker.lost ==> fresh(t)
      invariant Underway(session, log, frames, turns, outputs, sources, ids)
      invariant forall t :: t in ids ==> t.trackId == ids[t]
    {
      var shown;
      ghost var turn, output, source, more;
      ghost var tracks, losts := session.tracker.tracked, session.tracker.lost;
      assert forall k :: 0 <= k < |tracks| ==> tracks[k] in session.tracker.tracked;
      assert forall k :: 0 <= k < |losts| ==> losts[k] in session.tracker.lost;
      ok, shown, turn, output, source, more := RunFrame(session, frames, log, turns, outputs, sources, ids);
      if !ok {
        return;
      }
      log, turns, outputs, sources := log + [shown], turns + [turn], outputs + [output], sources + [source];
      ids := ids + more;
    }
    RunEnds(session, log, frames, turns, outputs, sources, ids);
  }
}
