/** One tracked object: `STrack`, without its Kalman filter. */
module Tracks {
  import opened Rects

  datatype TrackState = New | Tracked | Lost | Removed

  class STrack {
    var rect: Rect
    var state: TrackState
    var activated: bool
    var score: real
    var trackId: nat
    var frameId: nat
    var startFrameId: nat
    var trackletLen: nat
    /** Not a field of the source: the index, among the objects of the frame it was last seen in, of the one it
        was seen as. */
    var source: nat

    constructor (rect: Rect, score: real, source: nat)
      ensures this.rect == rect && this.score == score && this.source == source
      ensures state == New && !activated && trackId == frameId == startFrameId == trackletLen == 0
    {
      this.rect, this.score, this.source := rect, score, source;
      state, activated := New, false;
      trackId, frameId, startFrameId, trackletLen := 0, 0, 0, 0;
    }

    /** A track born in the very first frame is confirmed at once; later ones wait for a second sighting. */
    method Activate(frame: nat, id: nat)
      modifies this`rect, this`state, this`activated, this`trackId, this`frameId, this`startFrameId, this`trackletLen
      ensures state == Tracked && activated == (old(activated) || frame == 1)
      ensures trackId == id && frameId == startFrameId == frame && trackletLen == 0
      ensures score == old(score) && source == old(source)
    {
      UpdateRect();
      state := Tracked;
      if frame == 1 {
        activated := true;
      }
      trackId := id;
      frameId := frame;
      startFrameId := frame;
      trackletLen := 0;
    }

    method ReActivate(det: STrack, frame: nat, newTrackId: int)
      modifies this
      ensures state == Tracked && activated && frameId == frame && trackletLen == 0
      ensures trackId == if 0 <= newTrackId then newTrackId else old(trackId)
      ensures startFrameId == old(startFrameId)
      ensures score == old(det.score) && source == old(det.source)
    {
      UpdateRect();
      state := Tracked;
      activated := true;
      score := det.score;
      source := det.source;
      if 0 <= newTrackId {
        trackId := newTrackId;
      }
      frameId := frame;
      trackletLen := 0;
    }

    method Update(det: STrack, frame: nat)
      modifies this
      ensures state == Tracked && activated && frameId == frame && trackletLen == old(trackletLen) + 1
      ensures trackId == old(trackId) && startFrameId == old(startFrameId)
      ensures score == old(det.score) && source == old(det.source)
    {
      UpdateRect();
      state := Tracked;
      activated := true;
      score := det.score;
      source := det.source;
      frameId := frame;
      trackletLen := trackletLen + 1;
    }

    method MarkAsLost()
      modifies this`state
      ensures state == Lost
    {
      state := Lost;
    }

    method MarkAsRemoved()
      modifies this`state
      ensures state == Removed
    {
      state := Removed;
    }

    /** The filter's new estimate is not part of this model: the box may become anything. */
    method UpdateRect()
      modifies this`rect
    {
      rect := *;
    }
  }
}
