/** src/gfx.c:30, 416-473: pixels of the framebuffer, and the line drawn with an error term. */
module LineRaster {
  import opened Basics
  import opened LineMoves

  type Color = byte

  datatype Point = Point(x: int, y: int)

  /** Size of the screen and distance between its rows in the framebuffer. */
  datatype Canvas = Canvas(w: nat, h: nat, pitch: nat)

  predicate GoodCanvas(c: Canvas, size: nat) {
    0 < c.w <= c.pitch && 0 < c.h && Lines(c.pitch, c.h) <= size
  }

  predicate OnCanvas(c: Canvas, p: Point) {
    0 <= p.x < c.w && 0 <= p.y < c.h
  }

  function Offset(c: Canvas, p: Point): nat
    requires OnCanvas(c, p)
  {
    Lines(c.pitch, p.y) + p.x
  }

  lemma OffsetInside(c: Canvas, p: Point)
    requires c.w <= c.pitch && OnCanvas(c, p)
    ensures Offset(c, p) < Lines(c.pitch, c.h)
  {
    LinesInOrder(c.pitch, p.y, c.h);
  }

  lemma OffsetInjective(c: Canvas, p: Point, q: Point)
    requires c.w <= c.pitch && OnCanvas(c, p) && OnCanvas(c, q)
    ensures Offset(c, p) == Offset(c, q) <==> p == q
  {
    if p.y < q.y {
      LinesInOrder(c.pitch, p.y, q.y);
    } else if q.y < p.y {
      LinesInOrder(c.pitch, q.y, p.y);
    }
  }

  // ----- Drawing points -----

  /** gfx_pixel: nothing happens outside the screen. */
  function Plot(c: Canvas, s: seq<Color>, p: Point, clr: Color): (t: seq<Color>)
    requires GoodCanvas(c, |s|)
    ensures |t| == |s|
  {
    if OnCanvas(c, p) then (OffsetInside(c, p); s[Offset(c, p) := clr]) else s
  }

  function PlotAll(c: Canvas, s: seq<Color>, ps: seq<Point>, clr: Color): (t: seq<Color>)
    requires GoodCanvas(c, |s|)
    ensures |t| == |s|
  {
    if ps == [] then s else Plot(c, PlotAll(c, s, ps[..|ps| - 1], clr), ps[|ps| - 1], clr)
  }

  lemma PlotNext(c: Canvas, s: seq<Color>, ps: seq<Point>, p: Point, clr: Color)
    requires GoodCanvas(c, |s|)
    ensures PlotAll(c, s, ps + [p], clr) == Plot(c, PlotAll(c, s, ps, clr), p, clr)
  {
    assert (ps + [p])[..|ps|] == ps;
  }

  /** Drawing points changes exactly those pixels of the screen that are among them, and nothing
      else of the framebuffer. */
  lemma {:induction false} PlotAllIs(c: Canvas, s: seq<Color>, ps: seq<Point>, clr: Color)
    requires GoodCanvas(c, |s|)
    ensures forall p | OnCanvas(c, p) ::
      (OffsetInside(c, p); PlotAll(c, s, ps, clr)[Offset(c, p)] == if p in ps then clr else s[Offset(c, p)])
    ensures forall k | 0 <= k < |s| && (forall p | OnCanvas(c, p) :: Offset(c, p) != k) ::
      PlotAll(c, s, ps, clr)[k] == s[k]
  {
    if ps != [] {
      var front, last := ps[..|ps| - 1], ps[|ps| - 1];
      PlotAllIs(c, s, front, clr);
      assert ps == front + [last];
      forall p | OnCanvas(c, p)
        ensures (OffsetInside(c, p); PlotAll(c, s, ps, clr)[Offset(c, p)] == if p in ps then clr else s[Offset(c, p)])
      {
        OffsetInside(c, p);
        if OnCanvas(c, last) {
          OffsetInjective(c, p, last);
        }
      }
    }
  }

  // ----- The error term -----

  /** Minor steps taken and the error term, after `i` major steps. */
  datatype Trace = Trace(k: nat, error: int)

  function Advance(t: Trace, dx: nat, dy: nat): Trace {
    if t.error - dy < 0 then Trace(t.k + 1, t.error - dy + dx) else Trace(t.k, t.error - dy)
  }

  function TraceAt(i: nat, dx: nat, dy: nat): Trace {
    if i == 0 then Trace(0, dx / 2) else Advance(TraceAt(i - 1, dx, dy), dx, dy)
  }

  /** `k` is a nearest row to the ideal one, i * dy / dx. */
  predicate Rounds(k: nat, i: nat, dx: nat, dy: nat) {
    2 * Abs(Lines(dx, k) - Lines(dy, i)) <= dx
  }

  /** The error term is kept by additions alone. */
  lemma {:induction false} ErrorTerm(i: nat, dx: nat, dy: nat)
    requires dy <= dx
    ensures var t := TraceAt(i, dx, dy);
      && t.error == dx / 2 - Lines(dy, i) + Lines(dx, t.k)
      && 0 <= t.error && (dx > 0 ==> t.error < dx) && t.k <= i
      && Rounds(t.k, i, dx, dy)
  {
    if i > 0 {
      ErrorTerm(i - 1, dx, dy);
    }
  }

  lemma {:induction false} TraceMonotone(i: nat, j: nat, dx: nat, dy: nat)
    requires i <= j
    ensures TraceAt(i, dx, dy).k <= TraceAt(j, dx, dy).k
  {
    if i < j {
      TraceMonotone(i, j - 1, dx, dy);
    }
  }

  lemma LinesCommute(a: nat, b: nat)
    ensures Lines(a, b) == Lines(b, a)
  {
    LinesIsProduct(a, b);
    LinesIsProduct(b, a);
  }

  /** All minor steps are taken exactly at the end. */
  lemma LastTrace(dx: nat, dy: nat)
    requires dy <= dx
    ensures TraceAt(dx, dx, dy).k == dy
  {
    ErrorTerm(dx, dx, dy);
    var k := TraceAt(dx, dx, dy).k;
    LinesCommute(dy, dx);
    if k > dy {
      LinesInOrder(dx, dy, k);
    } else if k < dy {
      LinesInOrder(dx, k, dy);
    }
  }

  // ----- The line -----

  function Clamped(c: Canvas, p: Point): (q: Point)
    requires c.w > 0 && c.h > 0
    ensures OnCanvas(c, q) && (OnCanvas(c, p) ==> q == p)
  {
    Point(Max(Min(p.x, c.w - 1), 0), Max(Min(p.y, c.h - 1), 0))
  }

  /** A line along its major axis: from `from` on, `dx` steps, with `dy` steps up or down. */
  datatype Course = Course(steep: bool, from: int, minor: int, dx: nat, dy: nat, up: bool)

  function CourseOf(a: Point, b: Point): (l: Course)
    ensures l.dy <= l.dx
  {
    var steep := Abs(b.y - a.y) > Abs(b.x - a.x);
    var a, b := if steep then Point(a.y, a.x) else a, if steep then Point(b.y, b.x) else b;
    var a, b := if a.x > b.x then b else a, if a.x > b.x then a else b;
    Course(steep, a.x, a.y, b.x - a.x, Abs(b.y - a.y), a.y < b.y)
  }

  function PointAt(l: Course, i: nat): Point {
    var k := TraceAt(i, l.dx, l.dy).k;
    var major, minor := l.from + i, if l.up then l.minor + k else l.minor - k;
    if l.steep then Point(minor, major) else Point(major, minor)
  }

  function PointsUpTo(l: Course, n: nat): (ps: seq<Point>)
    ensures |ps| == n
  {
    if n == 0 then [] else PointsUpTo(l, n - 1) + [PointAt(l, n - 1)]
  }

  lemma {:induction false} PointsUpToAre(l: Course, n: nat, i: nat)
    requires i < n
    ensures PointsUpTo(l, n)[i] == PointAt(l, i)
  {
    if i < n - 1 {
      PointsUpToAre(l, n - 1, i);
    }
  }

  function LinePoints(c: Canvas, a: Point, b: Point): seq<Point>
    requires c.w > 0 && c.h > 0
  {
    var l := CourseOf(Clamped(c, a), Clamped(c, b));
    PointsUpTo(l, l.dx + 1)
  }

  lemma PointOnCanvas(c: Canvas, a: Point, b: Point, i: nat)
    requires OnCanvas(c, a) && OnCanvas(c, b) && i <= CourseOf(a, b).dx
    ensures OnCanvas(c, PointAt(CourseOf(a, b), i))
  {
    var l := CourseOf(a, b);
    LastTrace(l.dx, l.dy);
    TraceMonotone(i, l.dx, l.dx, l.dy);
  }

  lemma Ends(a: Point, b: Point)
    ensures var l := CourseOf(a, b);
      var first, last := PointAt(l, 0), PointAt(l, l.dx);
      (first == a && last == b) || (first == b && last == a)
  {
    LastTrace(CourseOf(a, b).dx, CourseOf(a, b).dy);
  }

  /** One of the drawn pixels: on the screen, `i` steps along the longer side and nearest to the
      ideal line across it. */
  lemma LinePoint(c: Canvas, a: Point, b: Point, i: nat)
    requires OnCanvas(c, a) && OnCanvas(c, b) && i <= CourseOf(a, b).dx
    ensures var l := CourseOf(a, b);
      var p, first := PointAt(l, i), PointAt(l, 0);
      var along, across := Abs(p.x - first.x), Abs(p.y - first.y);
      && OnCanvas(c, p) && Max(along, across) == i
      && 2 * Abs(Min(along, across) * l.dx - i * l.dy) <= l.dx
  {
    var l := CourseOf(a, b);
    PointOnCanvas(c, a, b, i);
    ErrorTerm(i, l.dx, l.dy);
    var k := TraceAt(i, l.dx, l.dy).k;
    LinesIsProduct(l.dx, k);
    LinesIsProduct(l.dy, i);
    assert TraceAt(0, l.dx, l.dy).k == 0;
    hide TraceAt, CourseOf, Lines, OnCanvas;
    var p, first := PointAt(l, i), PointAt(l, 0);
    assert Min(Abs(p.x - first.x), Abs(p.y - first.y)) == k;
  }

  /** The longer and the shorter side of a line. */
  function Longer(a: Point, b: Point): nat {
    Max(Abs(b.x - a.x), Abs(b.y - a.y))
  }

  function Shorter(a: Point, b: Point): nat {
    Min(Abs(b.x - a.x), Abs(b.y - a.y))
  }

  lemma CourseLengths(a: Point, b: Point)
    ensures CourseOf(a, b).dx == Longer(a, b) && CourseOf(a, b).dy == Shorter(a, b)
  {
  }

  /** Some pixel of the line, against the first one. */
  ghost predicate OnLine(c: Canvas, first: Point, p: Point, i: nat, dx: nat, dy: nat) {
    var along, across := Abs(p.x - first.x), Abs(p.y - first.y);
    OnCanvas(c, p) && Max(along, across) == i && 2 * Abs(Min(along, across) * dx - i * dy) <= dx
  }

  /** From `v` to `u`, not behind `last`. */
  predicate HeadsFor(v: int, u: int, last: int) {
    v <= u <= last || v >= u >= last
  }

  /** `q` is a neighbour of `p` in the direction of `last`. */
  predicate Towards(p: Point, q: Point, last: Point) {
    && p != q && Abs(q.x - p.x) <= 1 && Abs(q.y - p.y) <= 1
    && HeadsFor(p.x, q.x, last.x) && HeadsFor(p.y, q.y, last.y)
  }

  lemma NextPoint(l: Course, i: nat)
    requires i < l.dx
    ensures Towards(PointAt(l, i), PointAt(l, i + 1), PointAt(l, l.dx))
  {
    TraceMonotone(i, i + 1, l.dx, l.dy);
    TraceMonotone(i + 1, l.dx, l.dx, l.dy);
    assert TraceAt(i + 1, l.dx, l.dy).k <= TraceAt(i, l.dx, l.dy).k + 1;
    hide TraceAt;
  }

  lemma LinePointsAre(c: Canvas, a: Point, b: Point)
    requires c.w > 0 && c.h > 0
    ensures var p, q := Clamped(c, a), Clamped(c, b);
      var ps, l := LinePoints(c, a, b), CourseOf(p, q);
      && |ps| == l.dx + 1 == Longer(p, q) + 1 && l.dy == Shorter(p, q)
      && forall i | 0 <= i <= l.dx :: ps[i] == PointAt(l, i)
  {
    hide PointAt, Clamped, PointsUpTo, Longer, Shorter, CourseOf;
    var p, q := Clamped(c, a), Clamped(c, b);
    var l := CourseOf(p, q);
    CourseLengths(p, q);
    forall i | 0 <= i <= l.dx
      ensures LinePoints(c, a, b)[i] == PointAt(l, i)
    {
      PointsUpToAre(l, l.dx + 1, i);
    }
  }

  /** The drawn pixels: as many as the longer side has, all different and on the screen, from one
      clamped end to the other, each a neighbour of the one before in the direction of the last, and
      after i steps along the longer side, of length dx, k steps along the other, of length dy, with
      2 * |k * dx - i * dy| <= dx. */
  lemma LineIs(c: Canvas, a: Point, b: Point)
    requires c.w > 0 && c.h > 0
    ensures var ps := LinePoints(c, a, b);
      var a, b := Clamped(c, a), Clamped(c, b);
      var dx, dy := Longer(a, b), Shorter(a, b);
      && |ps| == dx + 1
      && ((ps[0] == a && ps[dx] == b) || (ps[0] == b && ps[dx] == a))
      && (forall i | 0 <= i <= dx :: OnLine(c, ps[0], ps[i], i, dx, dy))
      && (forall i, j | 0 <= i < dx && j == i + 1 :: Towards(ps[i], ps[j], ps[dx]))
      && (forall i, j | 0 <= i < j <= dx :: ps[i] != ps[j])
  {
    hide CourseOf, PointAt, Clamped, LinePoints, Longer, Shorter, OnLine, Towards;
    var p, q := Clamped(c, a), Clamped(c, b);
    var ps, l := LinePoints(c, a, b), CourseOf(p, q);
    LinePointsAre(c, a, b);
    Ends(p, q);
    forall i | 0 <= i <= l.dx
      ensures OnLine(c, ps[0], ps[i], i, l.dx, l.dy)
    {
      LinePointOf(c, p, q, i);
    }
    forall i, j | 0 <= i < l.dx && j == i + 1
      ensures Towards(ps[i], ps[j], ps[l.dx])
    {
      NextPoint(l, i);
    }
    forall i, j | 0 <= i < j <= l.dx
      ensures ps[i] != ps[j]
    {
      OnLineOnce(c, ps[0], ps[i], i, j, l.dx, l.dy);
    }
  }

  lemma LinePointOf(c: Canvas, a: Point, b: Point, i: nat)
    requires OnCanvas(c, a) && OnCanvas(c, b) && i <= CourseOf(a, b).dx
    ensures var l := CourseOf(a, b); OnLine(c, PointAt(l, 0), PointAt(l, i), i, l.dx, l.dy)
  {
    LinePoint(c, a, b, i);
    hide CourseOf, PointAt, OnCanvas;
  }

  lemma OnLineOnce(c: Canvas, first: Point, p: Point, i: nat, j: nat, dx: nat, dy: nat)
    requires OnLine(c, first, p, i, dx, dy) && i != j
    ensures !OnLine(c, first, p, j, dx, dy)
  {
    hide OnCanvas;
  }

  // ----- The line in place -----

  function MajorStep(c: Canvas, l: Course): int {
    if l.steep then c.pitch else 1
  }

  function MinorStep(c: Canvas, l: Course): int {
    if l.steep then (if l.up then 1 else -1) else (if l.up then c.pitch else 0 - c.pitch)
  }

  /** The pointer moves through the framebuffer as the two counters of the course do on the screen. */
  lemma PointerStep(c: Canvas, l: Course, n: nat)
    requires OnCanvas(c, PointAt(l, n)) && OnCanvas(c, PointAt(l, n + 1))
    ensures Offset(c, PointAt(l, n + 1)) == Offset(c, PointAt(l, n)) + MajorStep(c, l)
      + if TraceAt(n, l.dx, l.dy).error - l.dy < 0 then MinorStep(c, l) else 0
  {
  }

  lemma NextPixel(c: Canvas, l: Course, a: Point, b: Point, n: nat)
    requires OnCanvas(c, a) && OnCanvas(c, b) && l == CourseOf(a, b) && n < l.dx && OnCanvas(c, PointAt(l, n))
    ensures OnCanvas(c, PointAt(l, n + 1))
    ensures var error := TraceAt(n, l.dx, l.dy).error - l.dy;
      Offset(c, PointAt(l, n + 1)) ==
        (if error < 0 then Offset(c, PointAt(l, n)) + MinorStep(c, l) else Offset(c, PointAt(l, n))) + MajorStep(c, l)
  {
    hide *;
    PointOnCanvas(c, a, b, n + 1);
    PointerStep(c, l, n);
  }

  lemma NextTrace(n: nat, dx: nat, dy: nat)
    ensures var e := TraceAt(n, dx, dy).error - dy;
      TraceAt(n + 1, dx, dy).error == if e < 0 then e + dx else e
  {
  }

  lemma PlotNextOfCourse(c: Canvas, s: seq<Color>, l: Course, n: nat, clr: Color)
    requires GoodCanvas(c, |s|) && OnCanvas(c, PointAt(l, n))
    ensures Offset(c, PointAt(l, n)) < |s|
    ensures PlotAll(c, s, PointsUpTo(l, n + 1), clr)
      == PlotAll(c, s, PointsUpTo(l, n), clr)[Offset(c, PointAt(l, n)) := clr]
  {
    OffsetInside(c, PointAt(l, n));
    PlotNext(c, s, PointsUpTo(l, n), PointAt(l, n), clr);
  }

  lemma NothingPlotted(c: Canvas, s: seq<Color>, l: Course, clr: Color)
    requires GoodCanvas(c, |s|)
    ensures PlotAll(c, s, PointsUpTo(l, 0), clr) == s
  {
  }

  /** gfx_line. */
  method DrawLine(c: Canvas, fb: array<Color>, a: Point, b: Point, clr: Color)
    requires GoodCanvas(c, fb.Length)
    modifies fb
    ensures fb[..] == PlotAll(c, old(fb[..]), LinePoints(c, a, b), clr)
  {
    var x0, y0 := Max(Min(a.x, c.w - 1), 0), Max(Min(a.y, c.h - 1), 0);
    var x1, y1 := Max(Min(b.x, c.w - 1), 0), Max(Min(b.y, c.h - 1), 0);
    ghost var p, q := Clamped(c, a), Clamped(c, b);
    ghost var l := CourseOf(p, q);
    assert p == Point(x0, y0) && q == Point(x1, y1);
    hide Max, Min, Clamped;
    var steep := Abs(y1 - y0) > Abs(x1 - x0);
    if steep {
      x0, y0 := y0, x0;
      x1, y1 := y1, x1;
    }
    if x0 > x1 {
      x0, x1 := x1, x0;
      y0, y1 := y1, y0;
    }
    assert l == Course(steep, x0, y0, x1 - x0, Abs(y1 - y0), y0 < y1);
    DrawCourse(c, fb, l, p, q, steep, x0, y0, x1, y1, clr);
  }

  /** Once the ends are in order along the longer side. */
  method DrawCourse(c: Canvas, fb: array<Color>, ghost l: Course, ghost a: Point, ghost b: Point,
                    steep: bool, x0: nat, y0: nat, x1: nat, y1: nat, clr: Color)
    requires GoodCanvas(c, fb.Length) && OnCanvas(c, a) && OnCanvas(c, b) && l == CourseOf(a, b)
    requires x0 <= x1 && l == Course(steep, x0, y0, x1 - x0, Abs(y1 - y0), y0 < y1)
    modifies fb
    ensures fb[..] == PlotAll(c, old(fb[..]), PointsUpTo(l, l.dx + 1), clr)
  {
    var dx, dy := x1 - x0, Abs(y1 - y0);
    PointOnCanvas(c, a, b, 0);
    assert TraceAt(0, dx, dy) == Trace(0, dx / 2);
    if steep {
      DrawSteps(c, fb, l, a, b, Lines(c.pitch, x0) + y0, c.pitch, if y0 < y1 then 1 else -1, dx, dy, clr);
    } else {
      DrawSteps(c, fb, l, a, b, Lines(c.pitch, y0) + x0, 1, if y0 < y1 then c.pitch else 0 - c.pitch, dx, dy, clr);
    }
  }

  method SetPixel(fb: array<Color>, p: nat, clr: Color)
    requires p < fb.Length
    modifies fb
    ensures fb[..] == old(fb[..])[p := clr]
  {
    fb[p] := clr;
  }

  /** The loop. */
  method DrawSteps(c: Canvas, fb: array<Color>, ghost l: Course, ghost a: Point, ghost b: Point,
                   start: nat, majorStep: int, minorStep: int, dx: nat, dy: nat, clr: Color)
    requires GoodCanvas(c, fb.Length) && OnCanvas(c, a) && OnCanvas(c, b) && l == CourseOf(a, b)
    requires dx == l.dx && dy == l.dy && majorStep == MajorStep(c, l) && minorStep == MinorStep(c, l)
    requires OnCanvas(c, PointAt(l, 0)) && start == Offset(c, PointAt(l, 0)) && TraceAt(0, dx, dy).error == dx / 2
    modifies fb
    ensures fb[..] == PlotAll(c, old(fb[..]), PointsUpTo(l, l.dx + 1), clr)
  {
    hide *;
    ghost var was := fb[..];
    NothingPlotted(c, was, l, clr);
    var pfb: int := start;
    var error := dx / 2;
    var n := 0;
    while n < dx + 1
      invariant 0 <= n <= dx + 1
      invariant TraceAt(n, dx, dy).error == error
      invariant n <= dx ==> OnCanvas(c, PointAt(l, n)) && pfb == Offset(c, PointAt(l, n))
      invariant fb[..] == PlotAll(c, was, PointsUpTo(l, n), clr)
    {
      PlotNextOfCourse(c, was, l, n, clr);
      SetPixel(fb, pfb, clr);
      NextTrace(n, dx, dy);
      if n < dx {
        NextPixel(c, l, a, b, n);
      }
      error := error - dy;
      if error < 0 {
        pfb := pfb + minorStep;
        error := error + dx;
      }
      pfb := pfb + majorStep;
      n := n + 1;
    }
  }

  /** gfx_pixel in place. */
  method DrawPixel(c: Canvas, fb: array<Color>, p: Point, clr: Color)
    requires GoodCanvas(c, fb.Length)
    modifies fb
    ensures fb[..] == Plot(c, old(fb[..]), p, clr)
  {
    if p.x >= 0 && p.x < c.w && p.y >= 0 && p.y < c.h {
      OffsetInside(c, p);
      fb[Lines(c.pitch, p.y) + p.x] := clr;
    }
  }
}
