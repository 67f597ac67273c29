/**
 * `Drawer`: the wireframe renderer. Every polygon of the model becomes a
 * closed cycle of segments between projected vertices, and every segment is
 * stepped with the DDA algorithm, writing foreground BGRA pixels into the
 * locked 32-bit bitmap buffer, a byte array with a row stride.
 */
module Rendering {
  import opened Wrappers
  import opened Geometry
  import ObjParsing

  newtype byte = x: int | 0 <= x < 256

  /** The foreground colour; only its blue, green and red bytes are written. */
  datatype Color = Color(b: byte, g: byte, r: byte)

  datatype PointF = PointF(x: real, y: real)

  /** The locked bitmap: `Width`, `Height` and `Stride` of its `BitmapData`. */
  datatype Surface = Surface(width: int, height: int, stride: int)

  /** `Format32bppArgb`, the pixel format of a `new Bitmap(width, height)`. */
  const BytesPerPixel: int := 4

  /** The pixel rows fit in the stride: the buffer holds `stride * height` bytes. */
  predicate ValidSurface(s: Surface) {
    0 <= s.width && 0 <= s.height && BytesPerPixel * s.width <= s.stride
  }

  // ----- rounding -----

  /** `float.Round`: to the nearest integer, ties to the even one. */
  function RoundEven(r: real): (n: int)
    ensures r - 0.5 <= n as real <= r + 0.5
    ensures (n as real - r == 0.5 || r - n as real == 0.5) ==> n % 2 == 0
  {
    var f := r.Floor;
    var frac := r - f as real;
    if frac < 0.5 then f
    else if frac > 0.5 then f + 1
    else if f % 2 == 0 then f
    else f + 1
  }

  // ----- the DDA line -----

  function Abs(r: real): real {
    if r < 0.0 then -r else r
  }

  function Max(a: real, b: real): real {
    if a < b then b else a
  }

  /** `(int)Math.Max(Math.Abs(dx), Math.Abs(dy))`: the cast truncates the non-negative maximum. */
  function StepCount(first: PointF, second: PointF): (n: nat)
    ensures var m := Max(Abs(second.x - first.x), Abs(second.y - first.y));
            n as real <= m < n as real + 1.0
  {
    Max(Abs(second.x - first.x), Abs(second.y - first.y)).Floor
  }

  /**
   * `d / stepCount`. With no steps the increment is never added to a point
   * that is drawn, so it is taken as 0 rather than the float quotient by zero.
   */
  function Increment(d: real, stepCount: nat): real {
    if stepCount == 0 then 0.0 else d / stepCount as real
  }

  /** The points `DrawLineDda` visits, in order: `firstPoint` plus k increments, k = 0 .. stepCount. */
  function DdaPoints(first: PointF, second: PointF): (pts: seq<PointF>)
    ensures |pts| == StepCount(first, second) + 1
    ensures pts[0] == first
    ensures StepCount(first, second) == 0 ==> pts == [first]
  {
    var n := StepCount(first, second);
    Walk(first, n, Increment(second.x - first.x, n), Increment(second.y - first.y, n))
  }

  /** `start`, then n more points, each the previous one moved by (xi, yi), as the loop's `+=` does. */
  function Walk(start: PointF, n: nat, xi: real, yi: real): (pts: seq<PointF>)
    ensures |pts| == n + 1 && pts[0] == start
    decreases n
  {
    if n == 0 then [start] else [start] + Walk(PointF(start.x + xi, start.y + yi), n - 1, xi, yi)
  }

  /** Consecutive points of a walk differ by exactly one step. */
  lemma {:induction false} WalkStep(start: PointF, n: nat, xi: real, yi: real, k: nat)
    requires k < n
    ensures var pts := Walk(start, n, xi, yi);
            pts[k + 1].x == pts[k].x + xi && pts[k + 1].y == pts[k].y + yi
    decreases k
  {
    var next := PointF(start.x + xi, start.y + yi);
    var pts, rest := Walk(start, n, xi, yi), Walk(next, n - 1, xi, yi);
    assert pts == [start] + rest;
    assert pts[k + 1] == rest[k];
    if k > 0 {
      WalkStep(next, n - 1, xi, yi, k - 1);
      assert pts[k] == rest[k - 1];
    }
  }

  /** Point k of a walk is `start` plus k steps. */
  lemma {:induction false} WalkAt(start: PointF, n: nat, xi: real, yi: real, k: nat)
    requires k <= n
    ensures Walk(start, n, xi, yi)[k] == PointF(start.x + k as real * xi, start.y + k as real * yi)
    decreases k
  {
    if k > 0 {
      var next := PointF(start.x + xi, start.y + yi);
      WalkAt(next, n - 1, xi, yi, k - 1);
      assert Walk(start, n, xi, yi)[k] == Walk(next, n - 1, xi, yi)[k - 1];
      ShiftMultiple(start.x, k, xi);
      ShiftMultiple(start.y, k, yi);
    }
  }

  /** (a + d) + (k - 1) d == a + k d. */
  lemma ShiftMultiple(a: real, k: nat, d: real)
    requires k > 0
    ensures (a + d) + (k - 1) as real * d == a + k as real * d
  {
    assert k as real * d == (k - 1) as real * d + d;
  }

  /** n * (d / n) == d for a positive n. */
  lemma IncrementsAddUp(d: real, n: nat)
    requires n > 0
    ensures n as real * Increment(d, n) == d
  {
    assert Increment(d, n) == d / n as real;
  }

  /** |d / r| == |d| / r for a positive r. */
  lemma AbsQuotient(d: real, r: real)
    requires r > 0.0
    ensures Abs(d / r) == Abs(d) / r
  {
    if d < 0.0 {
      assert d / r < 0.0;
      assert -(d / r) == (-d) / r;
    } else {
      assert d / r >= 0.0;
    }
  }

  /** With at least one step the walk ends exactly on `secondPoint`. */
  lemma DdaReachesSecond(first: PointF, second: PointF)
    requires StepCount(first, second) > 0
    ensures DdaPoints(first, second)[StepCount(first, second)] == second
  {
    var n := StepCount(first, second);
    var xi, yi := Increment(second.x - first.x, n), Increment(second.y - first.y, n);
    IncrementsAddUp(second.x - first.x, n);
    IncrementsAddUp(second.y - first.y, n);
    WalkEnds(first, n, xi, yi, second);
  }

  /** n steps that add up to the distance to `target` end on it. */
  lemma WalkEnds(start: PointF, n: nat, xi: real, yi: real, target: PointF)
    requires n as real * xi == target.x - start.x && n as real * yi == target.y - start.y
    ensures Walk(start, n, xi, yi)[n] == target
  {
    WalkAt(start, n, xi, yi, n);
  }

  /**
   * Along the longer axis a step moves by at least 1, and no increment
   * reaches 2, because the step count truncates the longer extent.
   */
  lemma DdaIncrementBounds(first: PointF, second: PointF)
    requires StepCount(first, second) > 0
    ensures var n := StepCount(first, second);
            var xi := Increment(second.x - first.x, n);
            var yi := Increment(second.y - first.y, n);
            Abs(xi) < 2.0 && Abs(yi) < 2.0 && 1.0 <= Max(Abs(xi), Abs(yi))
  {
    var n := StepCount(first, second);
    var dx, dy := second.x - first.x, second.y - first.y;
    assert Increment(dx, n) == dx / n as real;
    assert Increment(dy, n) == dy / n as real;
    QuotientBounds(dx, dy, n as real);
  }

  /** The increment bounds over the reals, for a divisor r = floor(max(|dx|, |dy|)) >= 1. */
  lemma QuotientBounds(dx: real, dy: real, r: real)
    requires 1.0 <= r <= Max(Abs(dx), Abs(dy)) < r + 1.0
    ensures Abs(dx / r) < 2.0 && Abs(dy / r) < 2.0 && 1.0 <= Max(Abs(dx / r), Abs(dy / r))
  {
    var m := Max(Abs(dx), Abs(dy));
    AbsQuotient(dx, r);
    AbsQuotient(dy, r);
    QuotientBelowTwo(Abs(dx), m, r);
    QuotientBelowTwo(Abs(dy), m, r);
    AtLeastOne(m, r);
  }

  /** m / r >= 1 when 1 <= r <= m. */
  lemma AtLeastOne(m: real, r: real)
    requires 1.0 <= r <= m
    ensures 1.0 <= m / r
  {
    QuotientMonotone(r, m, r);
    assert r / r == 1.0;
  }

  /** Division by a positive r keeps the order. */
  lemma QuotientMonotone(a: real, b: real, r: real)
    requires 0.0 < r && a <= b
    ensures a / r <= b / r
  {
    assert b / r - a / r == (b - a) / r;
  }

  /** a / r < 2 when 0 <= a <= m < r + 1 and r >= 1. */
  lemma QuotientBelowTwo(a: real, m: real, r: real)
    requires 1.0 <= r && 0.0 <= a <= m < r + 1.0
    ensures a / r < 2.0
  {
    assert a < 2.0 * r;
  }

  /** Consecutive points differ by exactly the two increments. */
  lemma DdaEvenSteps(first: PointF, second: PointF, k: nat)
    requires k < StepCount(first, second)
    ensures var n := StepCount(first, second);
            var pts := DdaPoints(first, second);
            pts[k + 1].x == pts[k].x + Increment(second.x - first.x, n)
            && pts[k + 1].y == pts[k].y + Increment(second.y - first.y, n)
  {
    var n := StepCount(first, second);
    WalkStep(first, n, Increment(second.x - first.x, n), Increment(second.y - first.y, n), k);
  }

  // ----- pixel writes -----

  /** The guard as the code writes it: the unrounded point lies in the bitmap. */
  predicate WrittenGuard(s: Surface, p: PointF) {
    0.0 <= p.x < s.width as real && 0.0 <= p.y < s.height as real
  }

  /** The offset of `pixel` from `Scan0`: rounded y rows of `stride`, rounded x pixels of 4 bytes. */
  function PixelAddress(s: Surface, p: PointF): int {
    RoundEven(p.y) * s.stride + RoundEven(p.x) * BytesPerPixel
  }

  /** All four bytes at the pixel's address lie before the end of the buffer. */
  predicate InBuffer(s: Surface, p: PointF) {
    PixelAddress(s, p) + BytesPerPixel <= s.stride * s.height
  }

  /** The written guard passes, but the pixel's bytes run past the end of the buffer. */
  predicate Escapes(s: Surface, p: PointF) {
    WrittenGuard(s, p) && !InBuffer(s, p)
  }

  /** The written guard, completed by the condition that the rounded pixel is in the bitmap. */
  predicate PixelGuard(s: Surface, p: PointF) {
    WrittenGuard(s, p) && RoundEven(p.x) < s.width && RoundEven(p.y) < s.height
  }

  /** The written guard lets a point through whose rounded pixel lies past the buffer's end. */
  lemma WrittenGuardEscapes()
    ensures var s := Surface(1, 1, 4);
            var p := PointF(0.0, 0.75);
            ValidSurface(s) && Escapes(s, p) && PixelAddress(s, p) >= s.stride * s.height
  {
    assert RoundEven(0.75) == 1;
    assert RoundEven(0.0) == 0;
  }

  /** Under the written guard the rounded pixel is at most one column or row outside the bitmap. */
  lemma WrittenGuardOvershoot(s: Surface, p: PointF)
    requires WrittenGuard(s, p)
    ensures 0 <= RoundEven(p.x) <= s.width && 0 <= RoundEven(p.y) <= s.height
  {
  }

  /** The completed guard differs from the written one only in the last half pixel of each axis. */
  lemma PixelGuardAgrees(s: Surface, p: PointF)
    requires p.x < s.width as real - 0.5 && p.y < s.height as real - 0.5
    ensures PixelGuard(s, p) <==> WrittenGuard(s, p)
  {
  }

  /** a <= b and 0 <= c give a * c <= b * c. */
  lemma MulMonotone(a: int, b: int, c: int)
    requires a <= b && 0 <= c
    ensures a * c <= b * c
  {
    assert b * c - a * c == (b - a) * c;
  }

  /** Under the written guard the address is not before `Scan0`. */
  lemma WrittenAddressNonNegative(s: Surface, p: PointF)
    requires ValidSurface(s) && WrittenGuard(s, p)
    ensures 0 <= PixelAddress(s, p)
  {
    MulMonotone(0, RoundEven(p.y), s.stride);
  }

  /** Under the completed guard all four bytes of the pixel lie inside the buffer. */
  lemma PixelGuardInBuffer(s: Surface, p: PointF)
    requires ValidSurface(s) && PixelGuard(s, p)
    ensures 0 <= PixelAddress(s, p) && PixelAddress(s, p) + BytesPerPixel <= s.stride * s.height
  {
    var rx, ry := RoundEven(p.x), RoundEven(p.y);
    assert 0 <= rx < s.width && 0 <= ry < s.height;
    MulMonotone(0, ry, s.stride);
    MulMonotone(ry + 1, s.height, s.stride);
    assert PixelAddress(s, p) + BytesPerPixel <= ry * s.stride + BytesPerPixel * s.width;
    assert (ry + 1) * s.stride == ry * s.stride + s.stride;
  }

  /**
   * A point in the last half pixel of a row rounds to column `width`; with
   * rows packed at `stride == 4 * width` its bytes are those of the first
   * pixel of the next row.
   */
  lemma WrittenGuardWraps(s: Surface, p: PointF)
    requires s.stride == BytesPerPixel * s.width && WrittenGuard(s, p)
    requires RoundEven(p.x) == s.width
    ensures PixelAddress(s, p) == (RoundEven(p.y) + 1) * s.stride
  {
  }

  /** A point the written guard lets through from above the last row has its pixel in the buffer. */
  lemma UpperRowInBuffer(s: Surface, p: PointF)
    requires ValidSurface(s) && WrittenGuard(s, p) && RoundEven(p.y) < s.height - 1
    ensures InBuffer(s, p)
  {
    var ry := RoundEven(p.y);
    MulMonotone(ry + 2, s.height, s.stride);
    assert (ry + 2) * s.stride == ry * s.stride + s.stride + s.stride;
    assert PixelAddress(s, p) + BytesPerPixel <= ry * s.stride + s.stride + BytesPerPixel;
  }

  /** Only a point that rounds into the last row or below it can leave the buffer. */
  lemma EscapeNeedsLastRow(s: Surface, p: PointF)
    requires ValidSurface(s) && Escapes(s, p)
    ensures s.height - 1 <= RoundEven(p.y)
  {
    if RoundEven(p.y) < s.height - 1 {
      UpperRowInBuffer(s, p);
    }
  }

  /**
   * One iteration of the DDA loop on the buffer. The write happens whenever
   * the written guard passes; a write that would leave the buffer is not
   * made (`Escapes` reports it).
   */
  function Plot(buf: seq<byte>, s: Surface, c: Color, p: PointF): (r: seq<byte>)
    requires ValidSurface(s) && |buf| == s.stride * s.height
    ensures |r| == |buf|
  {
    if WrittenGuard(s, p) && InBuffer(s, p) then
      WrittenAddressNonNegative(s, p);
      var a := PixelAddress(s, p);
      buf[a := c.b][a + 1 := c.g][a + 2 := c.r][a + 3 := 255]
    else buf
  }

  /**
   * When the written guard passes and the pixel is in the buffer, bytes 0-2
   * of the pixel get the foreground blue, green and red and byte 3 gets 255;
   * no other byte changes, and nothing changes otherwise.
   */
  lemma PlotWritesOnePixel(buf: seq<byte>, s: Surface, c: Color, p: PointF)
    requires ValidSurface(s) && |buf| == s.stride * s.height
    ensures var r := Plot(buf, s, c, p);
            WrittenGuard(s, p) && !Escapes(s, p) ==>
              var a := PixelAddress(s, p);
              0 <= a && a + 3 < |buf| && r[a] == c.b && r[a + 1] == c.g && r[a + 2] == c.r && r[a + 3] == 255
    ensures var r := Plot(buf, s, c, p);
            forall j :: 0 <= j < |buf| && !(WrittenGuard(s, p) && PixelAddress(s, p) <= j < PixelAddress(s, p) + 4)
              ==> r[j] == buf[j]
    ensures !WrittenGuard(s, p) || Escapes(s, p) ==> Plot(buf, s, c, p) == buf
  {
    if WrittenGuard(s, p) {
      WrittenAddressNonNegative(s, p);
    }
  }

  /** The buffer after plotting the points in order. */
  function PlotAll(buf: seq<byte>, s: Surface, c: Color, pts: seq<PointF>): (r: seq<byte>)
    requires ValidSurface(s) && |buf| == s.stride * s.height
    ensures |r| == |buf|
  {
    if pts == [] then buf
    else Plot(PlotAll(buf, s, c, pts[..|pts| - 1]), s, c, pts[|pts| - 1])
  }

  /** Whether plotting the points in order tries a write past the buffer's end. */
  function PointsEscape(s: Surface, pts: seq<PointF>): bool {
    pts != [] && (PointsEscape(s, pts[..|pts| - 1]) || Escapes(s, pts[|pts| - 1]))
  }

  /** Plotting escapes exactly when some point does. */
  lemma {:induction false} PointsEscapeIffSome(s: Surface, pts: seq<PointF>)
    ensures PointsEscape(s, pts) <==> exists k :: 0 <= k < |pts| && Escapes(s, pts[k])
  {
    if pts != [] {
      var n := |pts| - 1;
      PointsEscapeIffSome(s, pts[..n]);
      assert forall k :: 0 <= k < n ==> pts[..n][k] == pts[k];
    }
  }

  // ----- polygons -----

  /** A line drawn by `DrawLineDda`, from its first to its second point. */
  datatype Segment = Segment(from: PointF, to: PointF)

  /** The buffer after drawing one line. */
  function DrawLine(buf: seq<byte>, s: Surface, c: Color, seg: Segment): (r: seq<byte>)
    requires ValidSurface(s) && |buf| == s.stride * s.height
    ensures |r| == |buf|
  {
    PlotAll(buf, s, c, DdaPoints(seg.from, seg.to))
  }

  /** The buffer after drawing the lines in order. */
  function DrawLines(buf: seq<byte>, s: Surface, c: Color, segs: seq<Segment>): (r: seq<byte>)
    requires ValidSurface(s) && |buf| == s.stride * s.height
    ensures |r| == |buf|
  {
    if segs == [] then buf
    else DrawLine(DrawLines(buf, s, c, segs[..|segs| - 1]), s, c, segs[|segs| - 1])
  }

  /** Whether drawing one line tries a write past the buffer's end. */
  function LineEscapes(s: Surface, seg: Segment): bool {
    PointsEscape(s, DdaPoints(seg.from, seg.to))
  }

  /** Whether drawing the lines in order tries a write past the buffer's end. */
  function LinesEscape(s: Surface, segs: seq<Segment>): bool {
    segs != [] && (LinesEscape(s, segs[..|segs| - 1]) || LineEscapes(s, segs[|segs| - 1]))
  }

  /** Drawing lines escapes exactly when one of them does. */
  lemma {:induction false} LinesEscapeIffSome(s: Surface, segs: seq<Segment>)
    ensures LinesEscape(s, segs) <==> exists k :: 0 <= k < |segs| && LineEscapes(s, segs[k])
  {
    if segs != [] {
      var n := |segs| - 1;
      LinesEscapeIffSome(s, segs[..n]);
      assert forall k :: 0 <= k < n ==> segs[..n][k] == segs[k];
    }
  }

  /** `pointsArray`: the x and y of every transformed vertex. */
  function Points(vertices: seq<Vec4>): seq<PointF> {
    seq(|vertices|, i requires 0 <= i < |vertices| => PointF(vertices[i].x, vertices[i].y))
  }

  /** `pointsArray[index - 1]`: polygon indices are read as one-based; others throw. */
  function Lookup(points: seq<PointF>, index: int): (r: Option<PointF>)
    ensures r.Some? <==> 1 <= index <= |points|
    ensures r.Some? ==> r.value == points[index - 1]
  {
    if 1 <= index <= |points| then Some(points[index - 1]) else None
  }

  /**
   * The index pairs `Draw` joins for one polygon, in drawing order: each
   * index to the next, then the last back to the first.
   */
  function Edges(polygon: seq<int>): (es: seq<(int, int)>)
    ensures |es| == |polygon|
  {
    var n := |polygon|;
    seq(n, i requires 0 <= i < n => (polygon[i], if i < n - 1 then polygon[i + 1] else polygon[0]))
  }

  /** The edges form one closed cycle: edge i runs from index i to index i + 1 modulo the polygon's size. */
  lemma EdgesFormCycle(polygon: seq<int>)
    ensures forall i {:trigger Edges(polygon)[i]} :: 0 <= i < |polygon| ==>
              Edges(polygon)[i] == (polygon[i], polygon[(i + 1) % |polygon|])
  {
    forall i | 0 <= i < |polygon|
      ensures Edges(polygon)[i] == (polygon[i], polygon[(i + 1) % |polygon|])
    {
      NextModulo(i, |polygon|);
    }
  }

  /** Edge i joins index i to the next one, or the last index to the first. */
  lemma EdgeAt(polygon: seq<int>, i: int)
    requires 0 <= i < |polygon|
    ensures Edges(polygon)[i] == (polygon[i], if i < |polygon| - 1 then polygon[i + 1] else polygon[0])
  {
  }

  /** i + 1 modulo n is the next index, wrapping to 0 after the last. */
  lemma NextModulo(i: int, n: int)
    requires 0 <= i < n
    ensures (i + 1) % n == if i < n - 1 then i + 1 else 0
  {
    if i < n - 1 {
      assert 0 <= i + 1 < n;
    } else {
      assert i + 1 == n;
    }
  }

  /** Each edge ends where the next one, cyclically, begins. */
  lemma EdgesChain(polygon: seq<int>, i: int)
    requires 0 <= i < |polygon|
    ensures Edges(polygon)[i].1 == Edges(polygon)[(i + 1) % |polygon|].0
  {
    NextModulo(i, |polygon|);
    EdgeAt(polygon, i);
    EdgeAt(polygon, (i + 1) % |polygon|);
  }

  /** What drawing a list of segments produced: the segments drawn and whether all were. */
  datatype Plan = Plan(segments: seq<Segment>, complete: bool)

  /**
   * Looking up the edges in order; the first index out of range throws,
   * after the earlier edges were drawn.
   */
  function LookupEdges(points: seq<PointF>, es: seq<(int, int)>): Plan {
    if es == [] then Plan([], true)
    else
      var prev := LookupEdges(points, es[..|es| - 1]);
      var e := es[|es| - 1];
      if !prev.complete then prev
      else if Lookup(points, e.0).Some? && Lookup(points, e.1).Some? then
        Plan(prev.segments + [Segment(Lookup(points, e.0).value, Lookup(points, e.1).value)], true)
      else Plan(prev.segments, false)
  }

  /** The pairs the `for` loop of `Draw` joins: each index to the next, without the closing pair. */
  function Chain(polygon: seq<int>): (es: seq<(int, int)>)
    ensures |es| == if polygon == [] then 0 else |polygon| - 1
    ensures forall i :: 0 <= i < |es| ==> es[i] == (polygon[i], polygon[i + 1])
  {
    if polygon == [] then []
    else seq(|polygon| - 1, i requires 0 <= i < |polygon| - 1 => (polygon[i], polygon[i + 1]))
  }

  /** The loop's pairs followed by the closing pair are the whole cycle of edges. */
  lemma ChainThenClosing(polygon: seq<int>)
    requires polygon != []
    ensures Chain(polygon) + [(polygon[|polygon| - 1], polygon[0])] == Edges(polygon)
  {
    var n := |polygon|;
    var es := Chain(polygon) + [(polygon[n - 1], polygon[0])];
    forall i | 0 <= i < n ensures es[i] == Edges(polygon)[i] {
      EdgeAt(polygon, i);
    }
  }

  /**
   * The closing `DrawLineDda` from the last index back to the first, after
   * a plan for the other edges: it throws when either index is out of range.
   */
  function Close(points: seq<PointF>, plan: Plan, last: int, first: int): (r: Plan)
    ensures r.complete <==> plan.complete && Lookup(points, last).Some? && Lookup(points, first).Some?
    ensures r.complete ==> r.segments == plan.segments + [Segment(points[last - 1], points[first - 1])]
    ensures !r.complete ==> r.segments == plan.segments
  {
    if !plan.complete then plan
    else if Lookup(points, last).Some? && Lookup(points, first).Some? then
      Plan(plan.segments + [Segment(Lookup(points, last).value, Lookup(points, first).value)], true)
    else Plan(plan.segments, false)
  }

  /** One polygon of the `foreach`; an empty one throws at `polygon[^1]`. */
  function PolygonPlan(points: seq<PointF>, polygon: seq<int>): Plan {
    if polygon == [] then Plan([], false)
    else Close(points, LookupEdges(points, Chain(polygon)), polygon[|polygon| - 1], polygon[0])
  }

  /**
   * A polygon's plan is the lookup of its whole cycle of edges: the last
   * pair of the loop is followed by the closing pair, and the first index
   * out of range ends the polygon.
   */
  lemma PolygonPlanFollowsCycle(points: seq<PointF>, polygon: seq<int>)
    requires polygon != []
    ensures PolygonPlan(points, polygon) == LookupEdges(points, Edges(polygon))
  {
    var n := |polygon|;
    var es := Chain(polygon) + [(polygon[n - 1], polygon[0])];
    ChainThenClosing(polygon);
    assert es[..|es| - 1] == Chain(polygon);
    assert es[|es| - 1] == (polygon[n - 1], polygon[0]);
    assert LookupEdges(points, es) == PolygonPlan(points, polygon);
  }

  /**
   * The `foreach` over the polygons, for any per-polygon plan: the first
   * polygon that throws ends it, after the segments drawn so far.
   */
  function RunPolygons(polygons: seq<seq<int>>, plan: seq<int> -> Plan): Plan {
    if polygons == [] then Plan([], true)
    else
      var prev := RunPolygons(polygons[..|polygons| - 1], plan);
      if !prev.complete then prev
      else
        var last := plan(polygons[|polygons| - 1]);
        Plan(prev.segments + last.segments, last.complete)
  }

  /** The `foreach` of `Draw`. */
  function DrawPlan(points: seq<PointF>, polygons: seq<seq<int>>): Plan {
    RunPolygons(polygons, (polygon: seq<int>) => PolygonPlan(points, polygon))
  }

  /** Every index of an edge list lies in 1 .. |points|. */
  predicate EdgesInRange(points: seq<PointF>, es: seq<(int, int)>) {
    forall k :: 0 <= k < |es| ==> 1 <= es[k].0 <= |points| && 1 <= es[k].1 <= |points|
  }

  /**
   * The edges are all drawn exactly when every index is in range, and then
   * segment k joins the points the one-based indices of edge k select.
   */
  lemma {:induction false} LookupEdgesComplete(points: seq<PointF>, es: seq<(int, int)>)
    ensures LookupEdges(points, es).complete <==> EdgesInRange(points, es)
    ensures LookupEdges(points, es).complete ==> |LookupEdges(points, es).segments| == |es|
    ensures LookupEdges(points, es).complete ==>
              forall k :: 0 <= k < |es| ==>
                LookupEdges(points, es).segments[k] == Segment(points[es[k].0 - 1], points[es[k].1 - 1])
  {
    if es != [] {
      var n := |es| - 1;
      LookupEdgesComplete(points, es[..n]);
      assert forall k :: 0 <= k < n ==> es[..n][k] == es[k];
    }
  }

  /** A polygon is drawable when it is not empty and all its indices are in 1 .. |points|. */
  predicate Drawable(points: seq<PointF>, polygon: seq<int>) {
    polygon != [] && forall k :: 0 <= k < |polygon| ==> 1 <= polygon[k] <= |points|
  }

  /** The loop's pairs and the closing pair are in range exactly when all the polygon's indices are. */
  lemma ChainInRangeIffDrawable(points: seq<PointF>, polygon: seq<int>)
    requires polygon != []
    ensures (EdgesInRange(points, Chain(polygon)) && 1 <= polygon[|polygon| - 1] <= |points|
             && 1 <= polygon[0] <= |points|) <==> Drawable(points, polygon)
  {
    var es, n := Chain(polygon), |polygon|;
    if EdgesInRange(points, es) && 1 <= polygon[n - 1] <= |points| {
      forall k | 0 <= k < n ensures 1 <= polygon[k] <= |points| {
        if k < n - 1 {
          assert es[k] == (polygon[k], polygon[k + 1]);
        }
      }
    }
  }

  /** One polygon is drawn in full exactly when it is drawable, and then as |polygon| segments. */
  lemma PolygonPlanComplete(points: seq<PointF>, polygon: seq<int>)
    ensures PolygonPlan(points, polygon).complete <==> Drawable(points, polygon)
    ensures PolygonPlan(points, polygon).complete ==> |PolygonPlan(points, polygon).segments| == |polygon|
  {
    if polygon != [] {
      LookupEdgesComplete(points, Chain(polygon));
      ChainInRangeIffDrawable(points, polygon);
    }
  }

  /** A drawable polygon is drawn as its cycle of edges: segment k joins the points of edge k. */
  lemma PolygonSegmentsFollowCycle(points: seq<PointF>, polygon: seq<int>)
    requires Drawable(points, polygon)
    ensures var plan := PolygonPlan(points, polygon);
      plan.complete && |plan.segments| == |polygon|
      && forall k :: 0 <= k < |polygon| ==>
           plan.segments[k] == Segment(points[Edges(polygon)[k].0 - 1], points[Edges(polygon)[k].1 - 1])
  {
    var es := Chain(polygon);
    PolygonPlanComplete(points, polygon);
    LookupEdgesComplete(points, es);
    var inner := LookupEdges(points, es).segments;
    forall j | 0 <= j < |inner| ensures inner[j] == Segment(points[polygon[j] - 1], points[polygon[j + 1] - 1]) {
      assert es[j] == (polygon[j], polygon[j + 1]);
    }
    forall k | 0 <= k < |polygon|
      ensures PolygonPlan(points, polygon).segments[k]
           == Segment(points[Edges(polygon)[k].0 - 1], points[Edges(polygon)[k].1 - 1])
    {
      CycleSegmentAt(points, polygon, inner, k);
    }
  }

  /** Segment k of the loop's segments followed by the closing one joins the points of edge k. */
  lemma CycleSegmentAt(points: seq<PointF>, polygon: seq<int>, inner: seq<Segment>, k: int)
    requires Drawable(points, polygon) && 0 <= k < |polygon| && |inner| == |polygon| - 1
    requires forall j :: 0 <= j < |inner| ==> inner[j] == Segment(points[polygon[j] - 1], points[polygon[j + 1] - 1])
    ensures (inner + [Segment(points[polygon[|polygon| - 1] - 1], points[polygon[0] - 1])])[k]
         == Segment(points[Edges(polygon)[k].0 - 1], points[Edges(polygon)[k].1 - 1])
  {
    EdgeAt(polygon, k);
  }

  /** The run completes exactly when the plan of every polygon does. */
  lemma {:induction false} RunPolygonsComplete(polygons: seq<seq<int>>, plan: seq<int> -> Plan)
    ensures RunPolygons(polygons, plan).complete <==>
              forall p :: 0 <= p < |polygons| ==> plan(polygons[p]).complete
  {
    if polygons != [] {
      var n := |polygons| - 1;
      var prefix := polygons[..n];
      RunPolygonsComplete(prefix, plan);
      assert forall p :: 0 <= p < n ==> prefix[p] == polygons[p];
    }
  }

  /** `Draw` runs to the end exactly when every polygon is drawable. */
  lemma DrawPlanComplete(points: seq<PointF>, polygons: seq<seq<int>>)
    ensures DrawPlan(points, polygons).complete <==>
              forall p :: 0 <= p < |polygons| ==> Drawable(points, polygons[p])
  {
    var plan := (polygon: seq<int>) => PolygonPlan(points, polygon);
    RunPolygonsComplete(polygons, plan);
    forall p | 0 <= p < |polygons|
      ensures plan(polygons[p]).complete <==> Drawable(points, polygons[p])
    {
      PolygonPlanComplete(points, polygons[p]);
    }
  }

  /** A complete run draws the plans' segments one polygon after the other. */
  lemma {:induction false} RunPolygonsCount(polygons: seq<seq<int>>, plan: seq<int> -> Plan, size: seq<int> -> nat)
    requires forall polygon :: plan(polygon).complete ==> |plan(polygon).segments| == size(polygon)
    ensures RunPolygons(polygons, plan).complete ==> |RunPolygons(polygons, plan).segments| == Total(polygons, size)
  {
    if polygons != [] {
      RunPolygonsCount(polygons[..|polygons| - 1], plan, size);
    }
  }

  /** The sum of `size` over the polygons. */
  function Total(polygons: seq<seq<int>>, size: seq<int> -> nat): nat {
    if polygons == [] then 0
    else Total(polygons[..|polygons| - 1], size) + size(polygons[|polygons| - 1])
  }

  /** A complete run of `Draw` draws one segment per polygon index: n segments for n indices. */
  lemma DrawPlanCount(points: seq<PointF>, polygons: seq<seq<int>>)
    ensures DrawPlan(points, polygons).complete ==>
              |DrawPlan(points, polygons).segments| == Total(polygons, (polygon: seq<int>) => |polygon|)
  {
    var plan := (polygon: seq<int>) => PolygonPlan(points, polygon);
    forall polygon | plan(polygon).complete
      ensures |plan(polygon).segments| == |polygon|
    {
      PolygonPlanComplete(points, polygon);
    }
    RunPolygonsCount(polygons, plan, (polygon: seq<int>) => |polygon|);
  }

  /**
   * The parser stores a positive file index i as i - 1, and `Draw` reads
   * stored index k as point k - 1: file index i reaches point i - 2, so the
   * first vertex of the file can never be drawn and i = |points| + 1 can.
   */
  lemma ParsedIndexShift(points: seq<PointF>, i: int, count: nat)
    requires i > 0
    ensures Lookup(points, ObjParsing.ResolveIndex(i, count)).Some? <==> 2 <= i <= |points| + 1
    ensures 2 <= i <= |points| + 1 ==> Lookup(points, ObjParsing.ResolveIndex(i, count)).value == points[i - 2]
    ensures Lookup(points, ObjParsing.ResolveIndex(1, count)) == None
  {
  }

  // ----- steps of the loops -----

  /** Plotting one more point of the walk. */
  lemma PlotAllStep(buf: seq<byte>, s: Surface, c: Color, pts: seq<PointF>, i: nat)
    requires ValidSurface(s) && |buf| == s.stride * s.height && i < |pts|
    ensures PlotAll(buf, s, c, pts[..i + 1]) == Plot(PlotAll(buf, s, c, pts[..i]), s, c, pts[i])
    ensures PointsEscape(s, pts[..i + 1]) == (PointsEscape(s, pts[..i]) || Escapes(s, pts[i]))
  {
    assert pts[..i + 1][..i] == pts[..i];
  }

  /** Drawing one more segment. */
  lemma DrawLinesAppend(buf: seq<byte>, s: Surface, c: Color, segs: seq<Segment>, seg: Segment)
    requires ValidSurface(s) && |buf| == s.stride * s.height
    ensures DrawLines(buf, s, c, segs + [seg]) == DrawLine(DrawLines(buf, s, c, segs), s, c, seg)
    ensures LinesEscape(s, segs + [seg]) == (LinesEscape(s, segs) || LineEscapes(s, seg))
  {
    assert (segs + [seg])[..|segs|] == segs;
  }

  /** An edge (a, b) whose lookups succeed extends the segments drawn. */
  lemma LookupEdgesStep(points: seq<PointF>, es: seq<(int, int)>, i: nat, inner: seq<Segment>, a: int, b: int)
    requires i < |es| && es[i] == (a, b) && LookupEdges(points, es[..i]) == Plan(inner, true)
    requires 1 <= a <= |points| && 1 <= b <= |points|
    ensures LookupEdges(points, es[..i + 1]) == Plan(inner + [Segment(points[a - 1], points[b - 1])], true)
  {
    var done := es[..i + 1];
    assert done[..i] == es[..i] && done[i] == es[i];
  }

  /** Once a lookup fails, later edges are not drawn. */
  lemma {:induction false} LookupEdgesFinal(points: seq<PointF>, es: seq<(int, int)>, k: nat)
    requires k <= |es| && !LookupEdges(points, es[..k]).complete
    ensures LookupEdges(points, es) == LookupEdges(points, es[..k])
  {
    if k < |es| {
      var n := |es| - 1;
      assert es[..n][..k] == es[..k];
      LookupEdgesFinal(points, es[..n], k);
    } else {
      assert es[..k] == es;
    }
  }

  /** Drawing two lists of segments one after the other draws their concatenation. */
  lemma {:induction false} DrawLinesConcat(buf: seq<byte>, s: Surface, c: Color, a: seq<Segment>, b: seq<Segment>)
    requires ValidSurface(s) && |buf| == s.stride * s.height
    ensures DrawLines(DrawLines(buf, s, c, a), s, c, b) == DrawLines(buf, s, c, a + b)
    ensures LinesEscape(s, a + b) == (LinesEscape(s, a) || LinesEscape(s, b))
  {
    if b == [] {
      assert a + b == a;
    } else {
      var m := |b| - 1;
      DrawLinesConcat(buf, s, c, a, b[..m]);
      assert (a + b)[..|a + b| - 1] == a + b[..m];
    }
  }

  /** Edge i has an index out of range: the polygon ends there, after the segments drawn. */
  lemma LookupEdgesStops(points: seq<PointF>, es: seq<(int, int)>, i: nat, inner: seq<Segment>)
    requires i < |es| && LookupEdges(points, es[..i]) == Plan(inner, true)
    requires !(1 <= es[i].0 <= |points| && 1 <= es[i].1 <= |points|)
    ensures LookupEdges(points, es) == Plan(inner, false)
  {
    var done := es[..i + 1];
    assert done[..i] == es[..i] && done[i] == es[i];
    assert Lookup(points, es[i].0).None? || Lookup(points, es[i].1).None?;
    assert LookupEdges(points, done) == Plan(inner, false);
    LookupEdgesFinal(points, es, i + 1);
  }

  /** One more polygon, after a run that has not thrown. */
  lemma RunPolygonsStep(polygons: seq<seq<int>>, plan: seq<int> -> Plan, p: nat, drawn: seq<Segment>)
    requires p < |polygons| && RunPolygons(polygons[..p], plan) == Plan(drawn, true)
    ensures RunPolygons(polygons[..p + 1], plan)
         == Plan(drawn + plan(polygons[p]).segments, plan(polygons[p]).complete)
  {
    assert polygons[..p + 1][..p] == polygons[..p];
  }

  /** Once a polygon throws, later polygons are not drawn. */
  lemma {:induction false} RunPolygonsFinal(polygons: seq<seq<int>>, plan: seq<int> -> Plan, k: nat)
    requires k <= |polygons| && !RunPolygons(polygons[..k], plan).complete
    ensures RunPolygons(polygons, plan) == RunPolygons(polygons[..k], plan)
  {
    if k < |polygons| {
      var n := |polygons| - 1;
      assert polygons[..n][..k] == polygons[..k];
      RunPolygonsFinal(polygons[..n], plan, k);
    } else {
      assert polygons[..k] == polygons;
    }
  }

  /** Polygon p throws: the run ends there, after the segments drawn. */
  lemma RunPolygonsStops(polygons: seq<seq<int>>, plan: seq<int> -> Plan, p: nat, drawn: seq<Segment>)
    requires p < |polygons| && RunPolygons(polygons[..p], plan) == Plan(drawn, true)
    requires !plan(polygons[p]).complete
    ensures RunPolygons(polygons, plan) == Plan(drawn + plan(polygons[p]).segments, false)
  {
    RunPolygonsStep(polygons, plan, p, drawn);
    RunPolygonsFinal(polygons, plan, p + 1);
  }

  // ----- the drawer -----

  /** The drawer: the foreground colour and the locked bitmap buffer it draws into. */
  class Drawer {
    const foreground: Color
    const surface: Surface
    const pixels: array<byte>

    /** The buffer holds exactly the bitmap's rows. */
    predicate Valid()
      reads this
    {
      ValidSurface(surface) && pixels.Length == surface.stride * surface.height
    }

    /** A new 32-bit bitmap of the given size, every byte 0 (transparent black). */
    constructor (width: int, height: int, foreground: Color)
      requires 0 < width && 0 < height
      ensures Valid() && this.foreground == foreground
      ensures surface == Surface(width, height, BytesPerPixel * width)
      ensures fresh(pixels) && forall k :: 0 <= k < pixels.Length ==> pixels[k] == 0
    {
      this.foreground := foreground;
      surface := Surface(width, height, BytesPerPixel * width);
      pixels := new byte[BytesPerPixel * width * height](_ => 0);
    }

    /**
     * `DrawLineDda`: steps from `first` towards `second`, plotting every
     * visited point that passes the written guard. `escaped` tells whether
     * some such point's pixel lay past the end of the buffer.
     */
    method DrawLineDda(first: PointF, second: PointF) returns (escaped: bool)
      requires Valid()
      modifies pixels
      ensures pixels[..] == DrawLine(old(pixels[..]), surface, foreground, Segment(first, second))
      ensures escaped == LineEscapes(surface, Segment(first, second))
    {
      var dx := second.x - first.x;
      var dy := second.y - first.y;
      var stepCount := Max(Abs(dx), Abs(dy)).Floor;
      assert stepCount == StepCount(first, second);
      var xIncrement := if stepCount == 0 then 0.0 else dx / stepCount as real;
      var yIncrement := if stepCount == 0 then 0.0 else dy / stepCount as real;
      assert xIncrement == Increment(dx, stepCount) && yIncrement == Increment(dy, stepCount);
      var x := first.x;
      var y := first.y;
      ghost var pts := DdaPoints(first, second);
      escaped := false;
      for i := 0 to stepCount + 1
        invariant i <= stepCount ==> PointF(x, y) == pts[i]
        invariant pixels[..] == PlotAll(old(pixels[..]), surface, foreground, pts[..i])
        invariant escaped == PointsEscape(surface, pts[..i])
      {
        PlotAllStep(old(pixels[..]), surface, foreground, pts, i);
        var outside := PlotPixel(x, y);
        escaped := escaped || outside;
        if i < stepCount {
          DdaEvenSteps(first, second, i);
        }
        x := x + xIncrement;
        y := y + yIncrement;
      }
      assert pts[..stepCount + 1] == pts;
    }

    /**
     * One step of the DDA loop's body: when the unrounded point passes the
     * guard, the rounded pixel of (x, y) takes the foreground colour, fully
     * opaque. A pixel whose bytes would run past the end of the buffer is
     * not written and is reported as `escaped`.
     */
    method PlotPixel(x: real, y: real) returns (escaped: bool)
      requires Valid()
      modifies pixels
      ensures pixels[..] == Plot(old(pixels[..]), surface, foreground, PointF(x, y))
      ensures escaped == Escapes(surface, PointF(x, y))
    {
      var px := RoundEven(x);
      var py := RoundEven(y);
      var pixel := py * surface.stride + px * BytesPerPixel;
      escaped := false;
      if 0.0 <= x < surface.width as real && 0.0 <= y < surface.height as real {
        if pixels.Length < pixel + BytesPerPixel {
          escaped := true;
          return;
        }
        WrittenAddressNonNegative(surface, PointF(x, y));
        pixels[pixel] := foreground.b;
        pixels[pixel + 1] := foreground.g;
        pixels[pixel + 2] := foreground.r;
        pixels[pixel + 3] := 255;
        assert pixels[..] == old(pixels[..])[pixel := foreground.b][pixel + 1 := foreground.g]
                                            [pixel + 2 := foreground.r][pixel + 3 := 255];
      }
    }

    /**
     * `Draw`: every polygon, in order, as its edges in order, each drawn by
     * `DrawLineDda` between the x, y of the one-based vertices it joins. An
     * empty polygon or an index out of range throws (false here) after the
     * segments drawn so far. `escaped` tells whether a drawn segment tried a
     * write past the end of the buffer.
     */
    method Draw(vertices: seq<Vec4>, polygons: seq<seq<int>>) returns (ok: bool, escaped: bool)
      requires Valid()
      modifies pixels
      ensures ok == DrawPlan(Points(vertices), polygons).complete
      ensures pixels[..] == DrawLines(old(pixels[..]), surface, foreground, DrawPlan(Points(vertices), polygons).segments)
      ensures escaped == LinesEscape(surface, DrawPlan(Points(vertices), polygons).segments)
    {
      var pointsArray := new PointF[|vertices|];
      for i := 0 to |vertices|
        invariant forall k :: 0 <= k < i ==> pointsArray[k] == PointF(vertices[k].x, vertices[k].y)
        invariant pixels[..] == old(pixels[..])
      {
        pointsArray[i] := PointF(vertices[i].x, vertices[i].y);
      }
      var points := pointsArray[..];
      assert points == Points(vertices);
      ghost var plan := (polygon: seq<int>) => PolygonPlan(points, polygon);
      ghost var drawn: seq<Segment> := [];
      escaped := false;
      for p := 0 to |polygons|
        invariant RunPolygons(polygons[..p], plan) == Plan(drawn, true)
        invariant pixels[..] == DrawLines(old(pixels[..]), surface, foreground, drawn)
        invariant escaped == LinesEscape(surface, drawn)
      {
        var polygonOk, polygonEscaped := DrawPolygon(points, polygons[p]);
        escaped := escaped || polygonEscaped;
        ghost var last := PolygonPlan(points, polygons[p]);
        assert plan(polygons[p]) == last;
        DrawLinesConcat(old(pixels[..]), surface, foreground, drawn, last.segments);
        assert pixels[..] == DrawLines(old(pixels[..]), surface, foreground, drawn + last.segments);
        if !polygonOk {
          RunPolygonsStops(polygons, plan, p, drawn);
          return false, escaped;
        }
        RunPolygonsStep(polygons, plan, p, drawn);
        drawn := drawn + last.segments;
      }
      assert polygons[..|polygons|] == polygons;
      ok := true;
    }

    /**
     * The body of the `foreach` in `Draw`: the segments between consecutive
     * indices, then the closing one from the last index back to the first.
     */
    method DrawPolygon(points: seq<PointF>, polygon: seq<int>) returns (ok: bool, escaped: bool)
      requires Valid()
      modifies pixels
      ensures ok == PolygonPlan(points, polygon).complete
      ensures pixels[..] == DrawLines(old(pixels[..]), surface, foreground, PolygonPlan(points, polygon).segments)
      ensures escaped == LinesEscape(surface, PolygonPlan(points, polygon).segments)
    {
      if polygon == [] {
        return false, false;
      }
      ghost var es := Chain(polygon);
      ghost var inner: seq<Segment> := [];
      escaped := false;
      var i := 0;
      while i < |polygon| - 1
        invariant 0 <= i <= |polygon| - 1
        invariant LookupEdges(points, es[..i]) == Plan(inner, true)
        invariant pixels[..] == DrawLines(old(pixels[..]), surface, foreground, inner)
        invariant escaped == LinesEscape(surface, inner)
      {
        var index1 := polygon[i];
        var index2 := polygon[i + 1];
        assert es[i] == (index1, index2);
        if index1 < 1 || |points| < index1 || index2 < 1 || |points| < index2 {
          LookupEdgesStops(points, es, i, inner);
          return false, escaped;
        }
        LookupEdgesStep(points, es, i, inner, index1, index2);
        var point1 := points[index1 - 1];
        var point2 := points[index2 - 1];
        var lineEscaped := DrawLineDda(point1, point2);
        escaped := escaped || lineEscaped;
        DrawLinesAppend(old(pixels[..]), surface, foreground, inner, Segment(point1, point2));
        inner := inner + [Segment(point1, point2)];
        i := i + 1;
      }
      assert es[..i] == es;
      ok, escaped := DrawClosingEdge(points, polygon, old(pixels[..]), inner, escaped);
    }

    /**
     * The closing segment of a polygon, from the vertex of its last index
     * back to that of its first, after the other edges were drawn.
     */
    method DrawClosingEdge(points: seq<PointF>, polygon: seq<int>, ghost start: seq<byte>, ghost inner: seq<Segment>,
                           escapedBefore: bool)
      returns (ok: bool, escaped: bool)
      requires Valid() && polygon != [] && |start| == pixels.Length
      requires LookupEdges(points, Chain(polygon)) == Plan(inner, true)
      requires pixels[..] == DrawLines(start, surface, foreground, inner)
      requires escapedBefore == LinesEscape(surface, inner)
      modifies pixels
      ensures ok == PolygonPlan(points, polygon).complete
      ensures pixels[..] == DrawLines(start, surface, foreground, PolygonPlan(points, polygon).segments)
      ensures escaped == LinesEscape(surface, PolygonPlan(points, polygon).segments)
    {
      var lastIndex := polygon[|polygon| - 1];
      var firstIndex := polygon[0];
      if lastIndex < 1 || |points| < lastIndex || firstIndex < 1 || |points| < firstIndex {
        return false, escapedBefore;
      }
      var lastPoint := points[lastIndex - 1];
      var firstPoint := points[firstIndex - 1];
      var lineEscaped := DrawLineDda(lastPoint, firstPoint);
      DrawLinesAppend(start, surface, foreground, inner, Segment(lastPoint, firstPoint));
      ok, escaped := true, escapedBefore || lineEscaped;
    }
  }
}
