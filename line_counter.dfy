/** The line counter object: the per-track tracking state, the counted ids,
    the per-line counts and the latest crossing per line, updated in place
    frame by frame. Every method is proved to follow the state functions of
    module Ledger, whose lemmas state what the counter guarantees. */
module LineCounting {
  import opened Geometry
  import opened Crossing
  import opened Ledger

  class LineCounter {
    /** The vertical counting line, at half of the width. */
    const lineXPosition: real
    /** The horizontal separator of line 1 (above) and line 2, at half of the height. */
    const lineYPosition: real

    var countedIds: set<int>
    /** The tracking state: the last centre of every track seen this session. */
    var trackingState: map<int, Point>
    var counts: PerLine<nat>
    var latestCrossings: PerLine<Option<CrossingInfo>>

    /** The counter's whole state as a value. */
    ghost function State(): State
      reads this
    {
      Ledger.State(trackingState, countedIds, counts, latestCrossings)
    }

    ghost predicate Valid()
      reads this
    {
      Inv(State())
    }

    constructor ()
      ensures Valid()
      ensures lineXPosition == 0.5 && lineYPosition == 0.5
      ensures State() == Initial()
    {
      countedIds := {};
      lineXPosition := 0.5;
      lineYPosition := 0.5;
      trackingState := map[];
      counts := PerLine(0, 0);
      latestCrossings := PerLine(None, None);
    }

    /** Processes one frame's detections in input order; ticks[i] is the tick
        count read if detection i is counted. */
    method UpdateCounts(detections: seq<Detection>, ticks: seq<int>)
      requires Valid()
      requires |ticks| == |detections|
      modifies this
      ensures Valid()
      ensures State() == Frame(old(State()), detections, ticks, lineXPosition, lineYPosition)
    {
      for i := 0 to |detections|
        invariant Valid()
        invariant State() == Frame(old(State()), detections[..i], ticks[..i], lineXPosition, lineYPosition)
      {
        FramePrefix(old(State()), detections, ticks, lineXPosition, lineYPosition, i);
        var detection := detections[i];
        var trackId := detection.trackId;
        var currentPos := DetectionCenter(detection);
        if trackId in trackingState {
          var prevPos := trackingState[trackId];
          if HasCrossedLine(prevPos, currentPos, lineXPosition) {
            ProcessLineCrossing(trackId, detection, currentPos, ticks[i]);
          }
        }
        trackingState := trackingState[trackId := currentPos];
      }
      assert detections[..|detections|] == detections;
      assert ticks[..|ticks|] == ticks;
    }

    /** Counts a detected crossing unless the track was already counted. It is
        called only by UpdateCounts, for a track that has a stored centre. */
    method ProcessLineCrossing(trackId: int, detection: Detection, position: Point, tick: int)
      requires Valid() && trackId in trackingState
      modifies this
      ensures Valid()
      ensures State() == ProcessCrossing(old(State()), trackId, detection.className, position, lineYPosition, tick)
    {
      if trackId !in countedIds {
        var lineKey := if position.y < lineYPosition then Line1 else Line2;
        counts := counts.Update(lineKey, counts.Get(lineKey) + 1);
        latestCrossings := latestCrossings.Update(lineKey, Some(CrossingInfo(detection.className, tick)));
        countedIds := countedIds + {trackId};
        assert |old(countedIds) + {trackId}| == |old(countedIds)| + 1;
      }
    }

    /** The current counts; the counter is left unchanged. */
    method GetCounts() returns (r: PerLine<nat>)
      ensures r == counts
    {
      r := counts;
    }

    /** The latest crossing per line; the counter is left unchanged. */
    method GetLatestCrossings() returns (r: PerLine<Option<CrossingInfo>>)
      ensures r == latestCrossings
    {
      r := latestCrossings;
    }

    /** Starts a new counting session. */
    method Reset()
      modifies this
      ensures Valid()
      ensures State() == Initial()
    {
      countedIds := {};
      trackingState := map[];
      counts := PerLine(0, 0);
      latestCrossings := PerLine(None, None);
    }
  }
}
