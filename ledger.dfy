/** The counting ledger and the per-frame update, as functions on a value of
    the counter's whole state. The class in module LineCounting is proved to
    follow these functions; the lemmas here state what the counter promises. */
module Ledger {
  import opened Geometry
  import opened Crossing

  datatype Option<T> = None | Some(value: T)

  /** The record of the most recent counted crossing on a line. */
  datatype CrossingInfo = CrossingInfo(className: string, timestamp: int)

  /** A dictionary whose keys are exactly the two lines. */
  datatype PerLine<T> = PerLine(line1: T, line2: T)
  {
    function Get(k: LineId): T
    {
      match k
      case Line1 => line1
      case Line2 => line2
    }

    /** The dictionary with the entry for k overwritten by v, the other kept. */
    function Update(k: LineId, v: T): (r: PerLine<T>)
      ensures r.Get(k) == v
      ensures forall j :: j != k ==> r.Get(j) == Get(j)
    {
      match k
      case Line1 => this.(line1 := v)
      case Line2 => this.(line2 := v)
    }
  }

  /** The counter's state: the last centre of every track seen (the tracking
      state), the ids already counted, the per-line counts and the latest
      counted crossing per line. */
  datatype State = State(
    history: map<int, Point>,
    countedIds: set<int>,
    counts: PerLine<nat>,
    latest: PerLine<Option<CrossingInfo>>)

  /** The state of a fresh or reset counter. */
  function Initial(): State
  {
    State(map[], {}, PerLine(0, 0), PerLine(None, None))
  }

  function Total(c: PerLine<nat>): nat
  {
    c.line1 + c.line2
  }

  /** The ledger's invariant: every counted id accounts for exactly one unit on
      exactly one line, a line has a latest crossing exactly when it has
      counted something, and only tracks with a recorded position are counted. */
  ghost predicate Inv(s: State)
  {
    && Total(s.counts) == |s.countedIds|
    && (s.latest.line1.Some? <==> s.counts.line1 > 0)
    && (s.latest.line2.Some? <==> s.counts.line2 > 0)
    && s.countedIds <= s.history.Keys
  }

  /** Counting of one detected crossing: a track id not yet counted adds one to
      the line its landing position is in, becomes that line's latest crossing
      and joins the counted ids; an id already counted changes nothing. */
  function ProcessCrossing(s: State, trackId: int, className: string, pos: Point, lineY: real, tick: int): (r: State)
    ensures r.history == s.history
  {
    if trackId !in s.countedIds then
      var k := LineFor(pos, lineY);
      s.(counts := s.counts.Update(k, s.counts.Get(k) + 1),
         latest := s.latest.Update(k, Some(CrossingInfo(className, tick))),
         countedIds := s.countedIds + {trackId})
    else
      s
  }

  /** Whether detection d produces a count from state s. */
  ghost predicate CountsOn(s: State, d: Detection, lineX: real)
  {
    && d.trackId in s.history
    && HasCrossedLine(s.history[d.trackId], DetectionCenter(d), lineX)
    && d.trackId !in s.countedIds
  }

  /** One iteration of the frame loop: test the track's stored centre against
      its new centre, count a crossing, and then record the new centre. */
  function Step(s: State, d: Detection, tick: int, lineX: real, lineY: real): State
  {
    var pos := DetectionCenter(d);
    var s' := if d.trackId in s.history && HasCrossedLine(s.history[d.trackId], pos, lineX)
              then ProcessCrossing(s, d.trackId, d.className, pos, lineY, tick)
              else s;
    s'.(history := s'.history[d.trackId := pos])
  }

  /** One frame: the detections applied in input order; ticks[i] is the
      timestamp read if detection i is counted. */
  function Frame(s: State, ds: seq<Detection>, ticks: seq<int>, lineX: real, lineY: real): State
    requires |ticks| == |ds|
    decreases |ds|
  {
    if ds == [] then s
    else
      var n := |ds| - 1;
      Step(Frame(s, ds[..n], ticks[..n], lineX, lineY), ds[n], ticks[n], lineX, lineY)
  }

  /** The track ids that occur in a frame. */
  function TrackIds(ds: seq<Detection>): set<int>
  {
    set i | 0 <= i < |ds| :: ds[i].trackId
  }

  /** Detection i is the last one of its track in ds. */
  ghost predicate IsLastOf(ds: seq<Detection>, i: int)
    requires 0 <= i < |ds|
  {
    forall j :: i < j < |ds| ==> ds[j].trackId != ds[i].trackId
  }

  // ---------------------------------------------------------------------
  // One detection

  /** At most once: a crossing by an id already counted changes nothing. */
  lemma ProcessCrossingCountedIdUnchanged(s: State, trackId: int, className: string, pos: Point, lineY: real, tick: int)
    requires trackId in s.countedIds
    ensures ProcessCrossing(s, trackId, className, pos, lineY, tick) == s
  {
  }

  /** A crossing by an id not yet counted changes exactly the landing line's
      count (by one) and latest crossing, and adds the id. */
  lemma ProcessCrossingNewId(s: State, trackId: int, className: string, pos: Point, lineY: real, tick: int)
    requires trackId !in s.countedIds
    ensures var r := ProcessCrossing(s, trackId, className, pos, lineY, tick);
            var k := if pos.y < lineY then Line1 else Line2;
            var other := if k == Line1 then Line2 else Line1;
            && r.countedIds == s.countedIds + {trackId}
            && r.counts.Get(k) == s.counts.Get(k) + 1
            && r.counts.Get(other) == s.counts.Get(other)
            && r.latest.Get(k) == Some(CrossingInfo(className, tick))
            && r.latest.Get(other) == s.latest.Get(other)
  {
  }

  /** A detection whose track has no recorded position never counts. */
  lemma StepNoHistoryNoCount(s: State, d: Detection, tick: int, lineX: real, lineY: real)
    requires d.trackId !in s.history
    ensures var r := Step(s, d, tick, lineX, lineY);
            r.countedIds == s.countedIds && r.counts == s.counts && r.latest == s.latest
  {
  }

  /** A detection counts exactly when its track has a stored centre, the move
      from it to the new centre crosses the line, and the id was not counted;
      otherwise the ledger is unchanged. */
  lemma StepCountsIff(s: State, d: Detection, tick: int, lineX: real, lineY: real)
    ensures var r := Step(s, d, tick, lineX, lineY);
            && (r.countedIds != s.countedIds <==> CountsOn(s, d, lineX))
            && (!CountsOn(s, d, lineX) ==> r.counts == s.counts && r.latest == s.latest)
  {
  }

  /** Line assignment uses the landing centre: a counted crossing landing above
      the separator adds one to line 1, otherwise to line 2, and nothing else. */
  lemma StepCountsLandingLine(s: State, d: Detection, tick: int, lineX: real, lineY: real)
    requires CountsOn(s, d, lineX)
    ensures var r := Step(s, d, tick, lineX, lineY);
            var landing := DetectionCenter(d);
            && r.countedIds == s.countedIds + {d.trackId}
            && (landing.y < lineY ==>
                  && r.counts == PerLine(s.counts.line1 + 1, s.counts.line2)
                  && r.latest == PerLine(Some(CrossingInfo(d.className, tick)), s.latest.line2))
            && (landing.y >= lineY ==>
                  && r.counts == PerLine(s.counts.line1, s.counts.line2 + 1)
                  && r.latest == PerLine(s.latest.line1, Some(CrossingInfo(d.className, tick))))
  {
  }

  /** The new centre is always recorded, counted or not, and only for this track. */
  lemma StepRecordsPosition(s: State, d: Detection, tick: int, lineX: real, lineY: real)
    ensures Step(s, d, tick, lineX, lineY).history == s.history[d.trackId := DetectionCenter(d)]
  {
  }

  /** One step keeps the ledger invariant. */
  lemma StepPreservesInv(s: State, d: Detection, tick: int, lineX: real, lineY: real)
    requires Inv(s)
    ensures Inv(Step(s, d, tick, lineX, lineY))
  {
    var r := Step(s, d, tick, lineX, lineY);
    if CountsOn(s, d, lineX) {
      assert |s.countedIds + {d.trackId}| == |s.countedIds| + 1;
    }
  }

  /** One step only adds counted ids and never lowers a count. */
  lemma StepMonotone(s: State, d: Detection, tick: int, lineX: real, lineY: real)
    ensures var r := Step(s, d, tick, lineX, lineY);
            && s.countedIds <= r.countedIds
            && s.counts.line1 <= r.counts.line1
            && s.counts.line2 <= r.counts.line2
            && s.history.Keys <= r.history.Keys
  {
  }

  // ---------------------------------------------------------------------
  // One frame

  /** Unfolding of Frame on a prefix: frame i + 1 is step i applied to frame i. */
  lemma FramePrefix(s: State, ds: seq<Detection>, ticks: seq<int>, lineX: real, lineY: real, i: nat)
    requires |ticks| == |ds| && i < |ds|
    ensures Frame(s, ds[..i + 1], ticks[..i + 1], lineX, lineY)
         == Step(Frame(s, ds[..i], ticks[..i], lineX, lineY), ds[i], ticks[i], lineX, lineY)
  {
    assert ds[..i + 1][..i] == ds[..i];
    assert ticks[..i + 1][..i] == ticks[..i];
  }

  /** update_counts keeps the ledger invariant. */
  lemma {:induction false} FramePreservesInv(s: State, ds: seq<Detection>, ticks: seq<int>, lineX: real, lineY: real)
    requires |ticks| == |ds| && Inv(s)
    ensures Inv(Frame(s, ds, ticks, lineX, lineY))
    decreases |ds|
  {
    if ds != [] {
      var n := |ds| - 1;
      FramePreservesInv(s, ds[..n], ticks[..n], lineX, lineY);
      StepPreservesInv(Frame(s, ds[..n], ticks[..n], lineX, lineY), ds[n], ticks[n], lineX, lineY);
    }
  }

  /** Within a frame counted ids only grow, counts never decrease, and no
      track's history is dropped. */
  lemma {:induction false} FrameMonotone(s: State, ds: seq<Detection>, ticks: seq<int>, lineX: real, lineY: real)
    requires |ticks| == |ds|
    ensures var r := Frame(s, ds, ticks, lineX, lineY);
            && s.countedIds <= r.countedIds
            && s.counts.line1 <= r.counts.line1
            && s.counts.line2 <= r.counts.line2
            && s.history.Keys <= r.history.Keys
    decreases |ds|
  {
    if ds != [] {
      var n := |ds| - 1;
      FrameMonotone(s, ds[..n], ticks[..n], lineX, lineY);
      StepMonotone(Frame(s, ds[..n], ticks[..n], lineX, lineY), ds[n], ticks[n], lineX, lineY);
    }
  }

  /** The tracks of a frame are those of its prefix plus the last one's. */
  lemma TrackIdsSnoc(ds: seq<Detection>)
    requires ds != []
    ensures TrackIds(ds) == TrackIds(ds[..|ds| - 1]) + {ds[|ds| - 1].trackId}
  {
    var n := |ds| - 1;
    var ds' := ds[..n];
    forall id | id in TrackIds(ds) ensures id in TrackIds(ds') + {ds[n].trackId} {
      var i :| 0 <= i < |ds| && ds[i].trackId == id;
      if i < n { assert ds'[i] == ds[i]; }
    }
    forall id | id in TrackIds(ds') ensures id in TrackIds(ds) {
      var i :| 0 <= i < |ds'| && ds'[i].trackId == id;
      assert ds[i] == ds'[i];
    }
  }

  /** After a frame, the tracking state holds exactly the tracks it held
      before together with the tracks of the frame. */
  lemma {:induction false} FrameHistoryKeys(s: State, ds: seq<Detection>, ticks: seq<int>, lineX: real, lineY: real)
    requires |ticks| == |ds|
    ensures Frame(s, ds, ticks, lineX, lineY).history.Keys == s.history.Keys + TrackIds(ds)
    decreases |ds|
  {
    if ds != [] {
      var n := |ds| - 1;
      FrameHistoryKeys(s, ds[..n], ticks[..n], lineX, lineY);
      StepRecordsPosition(Frame(s, ds[..n], ticks[..n], lineX, lineY), ds[n], ticks[n], lineX, lineY);
      TrackIdsSnoc(ds);
    }
  }

  /** After a frame, every track of the frame is mapped to the centre of its
      last detection in the frame. */
  lemma {:induction false} FrameHistoryLast(s: State, ds: seq<Detection>, ticks: seq<int>, lineX: real, lineY: real, i: nat)
    requires |ticks| == |ds| && i < |ds| && IsLastOf(ds, i)
    ensures var h := Frame(s, ds, ticks, lineX, lineY).history;
            ds[i].trackId in h && h[ds[i].trackId] == DetectionCenter(ds[i])
    decreases |ds|
  {
    var n := |ds| - 1;
    var ds', ticks' := ds[..n], ticks[..n];
    StepRecordsPosition(Frame(s, ds', ticks', lineX, lineY), ds[n], ticks[n], lineX, lineY);
    if i < n {
      assert ds[n].trackId != ds[i].trackId;
      assert ds'[i] == ds[i];
      assert IsLastOf(ds', i) by {
        forall j | i < j < |ds'| ensures ds'[j].trackId != ds'[i].trackId {
          assert ds'[j] == ds[j];
        }
      }
      FrameHistoryLast(s, ds', ticks', lineX, lineY, i);
    }
  }

  /** After a frame, a track that does not occur in it keeps its entry. */
  lemma {:induction false} FrameHistoryOthers(s: State, ds: seq<Detection>, ticks: seq<int>, lineX: real, lineY: real, id: int)
    requires |ticks| == |ds| && id in s.history && id !in TrackIds(ds)
    ensures var h := Frame(s, ds, ticks, lineX, lineY).history;
            id in h && h[id] == s.history[id]
    decreases |ds|
  {
    if ds != [] {
      var n := |ds| - 1;
      TrackIdsSnoc(ds);
      FrameHistoryOthers(s, ds[..n], ticks[..n], lineX, lineY, id);
      StepRecordsPosition(Frame(s, ds[..n], ticks[..n], lineX, lineY), ds[n], ticks[n], lineX, lineY);
    }
  }

  /** Consecutive frames compose: two update_counts calls act like one call on
      the concatenated detections, so the frame lemmas extend to a session. */
  lemma {:induction false} FrameConcat(s: State, a: seq<Detection>, ta: seq<int>, b: seq<Detection>, tb: seq<int>, lineX: real, lineY: real)
    requires |ta| == |a| && |tb| == |b|
    ensures Frame(Frame(s, a, ta, lineX, lineY), b, tb, lineX, lineY) == Frame(s, a + b, ta + tb, lineX, lineY)
    decreases |b|
  {
    if b == [] {
      assert a + b == a;
      assert ta + tb == ta;
    } else {
      var n := |b| - 1;
      FrameConcat(s, a, ta, b[..n], tb[..n], lineX, lineY);
      assert (a + b)[..|a| + n] == a + b[..n];
      assert (ta + tb)[..|ta| + n] == ta + tb[..n];
      assert (a + b)[|a| + n] == b[n];
      assert (ta + tb)[|ta| + n] == tb[n];
    }
  }

  /** Every unit a frame adds belongs to one newly counted id, and every newly
      counted id is a track of the frame: no id is ever counted twice. */
  lemma FrameCountsNewIds(s: State, ds: seq<Detection>, ticks: seq<int>, lineX: real, lineY: real)
    requires |ticks| == |ds| && Inv(s)
    ensures var r := Frame(s, ds, ticks, lineX, lineY);
            && Total(r.counts) == Total(s.counts) + |r.countedIds - s.countedIds|
            && r.countedIds - s.countedIds <= TrackIds(ds)
  {
    var r := Frame(s, ds, ticks, lineX, lineY);
    FramePreservesInv(s, ds, ticks, lineX, lineY);
    FrameMonotone(s, ds, ticks, lineX, lineY);
    FrameNewIdsInFrame(s, ds, ticks, lineX, lineY);
    assert r.countedIds == s.countedIds + (r.countedIds - s.countedIds);
  }

  /** Only tracks of the frame can join the counted ids. */
  lemma {:induction false} FrameNewIdsInFrame(s: State, ds: seq<Detection>, ticks: seq<int>, lineX: real, lineY: real)
    requires |ticks| == |ds|
    ensures Frame(s, ds, ticks, lineX, lineY).countedIds - s.countedIds <= TrackIds(ds)
    decreases |ds|
  {
    if ds != [] {
      var n := |ds| - 1;
      FrameNewIdsInFrame(s, ds[..n], ticks[..n], lineX, lineY);
      forall i | 0 <= i < n ensures ds[..n][i].trackId in TrackIds(ds) {
        assert ds[..n][i] == ds[i];
      }
      assert ds[n].trackId in TrackIds(ds);
    }
  }

  // ---------------------------------------------------------------------
  // Reset and sessions

  /** A fresh or reset counter satisfies the invariant. */
  lemma InitialInv()
    ensures Inv(Initial())
  {
  }

  /** After a reset any id can be counted again: a track seen on both sides of
      the line in its first two detections is counted, on its landing line. */
  lemma RecountAfterReset(d1: Detection, d2: Detection, t1: int, t2: int, lineX: real, lineY: real)
    requires d1.trackId == d2.trackId
    requires HasCrossedLine(DetectionCenter(d1), DetectionCenter(d2), lineX)
    ensures var r := Frame(Initial(), [d1, d2], [t1, t2], lineX, lineY);
            && r.countedIds == {d1.trackId}
            && r.counts.Get(LineFor(DetectionCenter(d2), lineY)) == 1
            && r.latest.Get(LineFor(DetectionCenter(d2), lineY)) == Some(CrossingInfo(d2.className, t2))
  {
    FramePrefix(Initial(), [d1, d2], [t1, t2], lineX, lineY, 0);
    FramePrefix(Initial(), [d1, d2], [t1, t2], lineX, lineY, 1);
    assert [d1, d2][..2] == [d1, d2];
    assert [t1, t2][..2] == [t1, t2];
    var s1 := Step(Initial(), d1, t1, lineX, lineY);
    assert s1.countedIds == {};
    assert CountsOn(s1, d2, lineX);
  }
}
