/** The crossing detector of the line counter: box centres, the test whether
    a track's centre crossed the vertical counting line between two frames,
    and the split of the frame into the two logical lines. All pure. */
module Crossing {
  import opened Geometry

  /** An axis-aligned bounding box (x1, y1, x2, y2) as the tracker reports it. */
  datatype Box = Box(x1: real, y1: real, x2: real, y2: real)

  /** One observation of a frame: a stable track id, a class label and a box. */
  datatype Detection = Detection(trackId: int, className: string, box: Box)

  /** The two logical counting lines, selected by the region a crossing lands in. */
  datatype LineId = Line1 | Line2

  function Min(a: real, b: real): real { if a <= b then a else b }

  function Max(a: real, b: real): real { if a <= b then b else a }

  /** The centre of a detection's box: it is equally far from both edges on
      each axis, and so lies between them. */
  function DetectionCenter(d: Detection): (p: Point)
    ensures p.x - d.box.x1 == d.box.x2 - p.x
    ensures p.y - d.box.y1 == d.box.y2 - p.y
    ensures Min(d.box.x1, d.box.x2) <= p.x <= Max(d.box.x1, d.box.x2)
    ensures Min(d.box.y1, d.box.y2) <= p.y <= Max(d.box.y1, d.box.y2)
  {
    Point((d.box.x1 + d.box.x2) / 2.0, (d.box.y1 + d.box.y2) / 2.0)
  }

  /** Where a coordinate lies relative to the vertical line at lineX. */
  datatype Side = Left | OnLine | Right

  function SideOf(x: real, lineX: real): Side
  {
    if x < lineX then Left else if x > lineX then Right else OnLine
  }

  /** The crossing test between a track's previous and current centre. It holds
      exactly when the previous centre was strictly on one side of the line and
      the current one is no longer strictly on that side; so a crossing always
      moves the centre, and a centre that was exactly on the line never crosses. */
  function HasCrossedLine(prev: Point, curr: Point, lineX: real): (r: bool)
    ensures r <==> SideOf(prev.x, lineX) != OnLine && SideOf(curr.x, lineX) != SideOf(prev.x, lineX)
    ensures r ==> prev.x != curr.x
    ensures prev.x == lineX ==> !r
  {
    (prev.x < lineX && curr.x >= lineX) || (prev.x > lineX && curr.x <= lineX)
  }

  /** The line a crossing is attributed to: the upper region (y above the
      horizontal separator) is line 1, everything else line 2. */
  function LineFor(pos: Point, lineY: real): LineId
  {
    if pos.y < lineY then Line1 else Line2
  }
}
