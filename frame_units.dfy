/** How detections reach the counter. The tracker reports boxes in integer
    pixels of the resized frame, while the counter's lines are fractions of the
    frame (0.5 of the width and of the height). Passing the pixel boxes as they
    are compares pixels with fractions; normalising the boxes by the frame size
    first makes the counter's line the drawn mid-frame line. */
module FrameUnits {
  import opened Geometry
  import opened Crossing
  import opened Ledger
  import opened LineCounting

  /** A tracker box in integer pixel coordinates. */
  datatype PixelBox = PixelBox(x1: int, y1: int, x2: int, y2: int)

  /** One tracker result as the detection loop assembles it. */
  datatype PixelDetection = PixelDetection(trackId: int, className: string, box: PixelBox)

  /** The box handed to the counter as the detection loop builds it: the pixel
      coordinates taken as they are. */
  function AsWrittenBox(b: PixelBox): Box
  {
    Box(b.x1 as real, b.y1 as real, b.x2 as real, b.y2 as real)
  }

  /** The box in fractions of a width x height frame, the unit of the lines. */
  function NormalizedBox(b: PixelBox, width: nat, height: nat): (r: Box)
    requires width > 0 && height > 0
    ensures r.x1 * width as real == b.x1 as real && r.x2 * width as real == b.x2 as real
    ensures r.y1 * height as real == b.y1 as real && r.y2 * height as real == b.y2 as real
  {
    Box(b.x1 as real / width as real, b.y1 as real / height as real,
        b.x2 as real / width as real, b.y2 as real / height as real)
  }

  function NormalizedDetection(d: PixelDetection, width: nat, height: nat): Detection
    requires width > 0 && height > 0
  {
    Detection(d.trackId, d.className, NormalizedBox(d.box, width, height))
  }

  function NormalizedFrame(ds: seq<PixelDetection>, width: nat, height: nat): (r: seq<Detection>)
    requires width > 0 && height > 0
    ensures |r| == |ds|
    ensures forall i :: 0 <= i < |ds| ==> r[i] == NormalizedDetection(ds[i], width, height)
  {
    seq(|ds|, i requires 0 <= i < |ds| => NormalizedDetection(ds[i], width, height))
  }

  /** As written: in a 640 pixel wide frame, a part whose centre moves from
      x = 100 to x = 500 passes the drawn line at x = 320, but the counter,
      comparing against 0.5, sees no crossing. */
  lemma AsWrittenMissesMidFrameCrossing()
    ensures var before := AsWrittenBox(PixelBox(80, 100, 120, 140));
            var after := AsWrittenBox(PixelBox(480, 100, 520, 140));
            var prev := DetectionCenter(Detection(7, "part", before));
            var curr := DetectionCenter(Detection(7, "part", after));
            && prev.x < 320.0 <= curr.x
            && !HasCrossedLine(prev, curr, 0.5)
  {
  }

  /** As written, with pixel boxes inside the frame, a crossing of the 0.5 line
      from left to right is only possible from a centre at pixel 0. */
  lemma AsWrittenRightwardCrossingOnlyFromEdge(b1: PixelBox, b2: PixelBox)
    requires b1.x1 >= 0 && b1.x2 >= 0
    ensures var prev := DetectionCenter(Detection(0, "", AsWrittenBox(b1)));
            var curr := DetectionCenter(Detection(0, "", AsWrittenBox(b2)));
            HasCrossedLine(prev, curr, 0.5) && prev.x < curr.x ==> prev.x == 0.0
  {
    var prev := DetectionCenter(Detection(0, "", AsWrittenBox(b1)));
    if prev.x < 0.5 {
      assert b1.x1 + b1.x2 < 1;
      assert b1.x1 + b1.x2 == 0;
    }
  }

  /** A fraction p of an extent w lies below, on or above one half exactly
      when p * w lies below, on or above w / 2. */
  lemma HalfOfScaled(p: real, w: real)
    requires w > 0.0
    ensures p < 0.5 <==> p * w < w / 2.0
    ensures p > 0.5 <==> p * w > w / 2.0
  {
    assert p * w - w / 2.0 == (p - 0.5) * w;
    if p < 0.5 {
      assert (0.5 - p) * w > 0.0;
    } else if p > 0.5 {
      assert (p - 0.5) * w > 0.0;
    } else {
      assert p * w == w / 2.0;
    }
  }

  /** The centre of a normalised box is the normalised pixel centre. */
  lemma NormalizedCenter(b: PixelBox, width: nat, height: nat)
    requires width > 0 && height > 0
    ensures var c := DetectionCenter(Detection(0, "", NormalizedBox(b, width, height)));
            var p := DetectionCenter(Detection(0, "", AsWrittenBox(b)));
            c.x * width as real == p.x && c.y * height as real == p.y
  {
    var n := NormalizedBox(b, width, height);
    var w, h := width as real, height as real;
    assert (n.x1 + n.x2) / 2.0 * w == (n.x1 * w + n.x2 * w) / 2.0;
    assert (n.y1 + n.y2) / 2.0 * h == (n.y1 * h + n.y2 * h) / 2.0;
  }

  /** Scaling both centres' coordinates by the frame size maps the crossing
      test and the line choice at one half to those at half the frame size. */
  lemma ScaledCrossing(prev: Point, curr: Point, prevPx: Point, currPx: Point, w: real, h: real)
    requires w > 0.0 && h > 0.0
    requires prev.x * w == prevPx.x && curr.x * w == currPx.x && curr.y * h == currPx.y
    ensures HasCrossedLine(prev, curr, 0.5) <==> HasCrossedLine(prevPx, currPx, w / 2.0)
    ensures LineFor(curr, 0.5) == LineFor(currPx, h / 2.0)
  {
    HalfOfScaled(prev.x, w);
    HalfOfScaled(curr.x, w);
    HalfOfScaled(curr.y, h);
  }

  /** Corrected: with normalised boxes, the counter's crossing test and line
      choice at 0.5 are exactly the crossing of the mid-frame line x = width/2
      and the split at y = height/2, measured in pixels. */
  lemma NormalizedMatchesMidFrame(b1: PixelBox, b2: PixelBox, width: nat, height: nat)
    requires width > 0 && height > 0
    ensures var prev := DetectionCenter(Detection(0, "", NormalizedBox(b1, width, height)));
            var curr := DetectionCenter(Detection(0, "", NormalizedBox(b2, width, height)));
            var prevPx := DetectionCenter(Detection(0, "", AsWrittenBox(b1)));
            var currPx := DetectionCenter(Detection(0, "", AsWrittenBox(b2)));
            && (HasCrossedLine(prev, curr, 0.5) <==> HasCrossedLine(prevPx, currPx, width as real / 2.0))
            && LineFor(curr, 0.5) == LineFor(currPx, height as real / 2.0)
  {
    NormalizedCenter(b1, width, height);
    NormalizedCenter(b2, width, height);
    ScaledCrossing(DetectionCenter(Detection(0, "", NormalizedBox(b1, width, height))),
                   DetectionCenter(Detection(0, "", NormalizedBox(b2, width, height))),
                   DetectionCenter(Detection(0, "", AsWrittenBox(b1))),
                   DetectionCenter(Detection(0, "", AsWrittenBox(b2))),
                   width as real, height as real);
  }

  /** Corrected hand-over of one frame: the tracker's pixel boxes are
      normalised by the frame size before the counter sees them. */
  method CountFrame(counter: LineCounter, frame: seq<PixelDetection>, width: nat, height: nat, ticks: seq<int>)
    requires counter.Valid()
    requires width > 0 && height > 0 && |ticks| == |frame|
    modifies counter
    ensures counter.Valid()
    ensures counter.State() == Frame(old(counter.State()), NormalizedFrame(frame, width, height), ticks,
                                     counter.lineXPosition, counter.lineYPosition)
  {
    var detections := NormalizedFrame(frame, width, height);
    counter.UpdateCounts(detections, ticks);
  }
}
