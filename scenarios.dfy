/** Worked sessions of the counter with both lines at 0.5, one detection per
    frame, stated against the state functions. */
module Scenarios {
  import opened Geometry
  import opened Crossing
  import opened Ledger

  /** The one-detection frame unfolds to one step. */
  lemma SingleFrame(s: State, d: Detection, tick: int, lineX: real, lineY: real)
    ensures Frame(s, [d], [tick], lineX, lineY) == Step(s, d, tick, lineX, lineY)
  {
    assert [d][..0] == [];
    assert [tick][..0] == [];
  }

  /** Track 7 first appears left of the line (no history, no count), then
      crosses in the upper half and is counted once on line 1, then crosses
      back and forth again: the detector fires, the count stays at 1. */
  lemma TrackSevenCountedOnce(className: string, t1: int, t2: int, t3: int, t4: int)
    ensures var at := (x: real) => Detection(7, className, Box(x - 0.1, 0.1, x + 0.1, 0.3));
            var s1 := Frame(Initial(), [at(0.3)], [t1], 0.5, 0.5);
            var s2 := Frame(s1, [at(0.6)], [t2], 0.5, 0.5);
            var s3 := Frame(s2, [at(0.4)], [t3], 0.5, 0.5);
            var s4 := Frame(s3, [at(0.6)], [t4], 0.5, 0.5);
            && s1.counts == PerLine(0, 0)
            && s2.counts == PerLine(1, 0)
            && s2.latest == PerLine(Some(CrossingInfo(className, t2)), None)
            && HasCrossedLine(s3.history[7], DetectionCenter(at(0.6)), 0.5)
            && s4.counts == PerLine(1, 0)
            && s4.latest == s2.latest
  {
    var at := (x: real) => Detection(7, className, Box(x - 0.1, 0.1, x + 0.1, 0.3));
    SingleFrame(Initial(), at(0.3), t1, 0.5, 0.5);
    var s1 := Step(Initial(), at(0.3), t1, 0.5, 0.5);
    SingleFrame(s1, at(0.6), t2, 0.5, 0.5);
    var s2 := Step(s1, at(0.6), t2, 0.5, 0.5);
    SingleFrame(s2, at(0.4), t3, 0.5, 0.5);
    var s3 := Step(s2, at(0.4), t3, 0.5, 0.5);
    SingleFrame(s3, at(0.6), t4, 0.5, 0.5);
    assert s1.history[7] == Point(0.3, 0.2);
    assert s2.countedIds == {7};
    assert s3.history[7] == Point(0.4, 0.2);
  }

  /** Track 9 sits exactly on the vertical line in two frames: no crossing. */
  lemma TrackNineOnTheLine(s: State, className: string, tick: int)
    requires 9 in s.history && s.history[9] == Point(0.5, 0.8)
    ensures var d := Detection(9, className, Box(0.4, 0.7, 0.6, 0.9));
            var r := Frame(s, [d], [tick], 0.5, 0.5);
            r.counts == s.counts && r.latest == s.latest && r.countedIds == s.countedIds
  {
    var d := Detection(9, className, Box(0.4, 0.7, 0.6, 0.9));
    SingleFrame(s, d, tick, 0.5, 0.5);
    assert DetectionCenter(d) == Point(0.5, 0.8);
  }
}
