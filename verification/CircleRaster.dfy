/** src/gfx.c:1029-1067: the outline of a circle, drawn with the midpoint recurrence; the same
    recurrence draws arcs (1149-1167). Integers do not overflow as long as |r| < 2^30. */
module CircleRaster {
  import opened Basics
  import opened LineRaster

  /** The variables of the loop. */
  datatype Arc = Arc(x: int, y: int, f: int, ddx: int, ddy: int)

  function Start(r: int): Arc {
    Arc(0, r, 1 - r, 1, -2 * r)
  }

  function Next(a: Arc): Arc {
    var b := if a.f >= 0 then a.(y := a.y - 1, ddy := a.ddy + 2, f := a.f + a.ddy + 2) else a;
    b.(x := b.x + 1, ddx := b.ddx + 2, f := b.f + b.ddx + 2)
  }

  /** Points of the first octant, from the one behind `a` on: as long as x < y. */
  function Octant(a: Arc): seq<Point>
    decreases a.y - a.x
  {
    if a.x >= a.y then [] else [Point(Next(a).x, Next(a).y)] + Octant(Next(a))
  }

  function Square(n: int): int {
    n * n
  }

  lemma SquareNext(n: int)
    ensures Square(n + 1) == Square(n) + 2 * n + 1
    ensures Square(-n) == Square(n) >= 0
  {
  }

  /** How far a point is from the circle around the origin, in squares. */
  function Miss(x: int, y: int, r: int): int {
    Square(x) + Square(y) - Square(r)
  }

  /** What the additions keep: `f` is the midpoint test (x + 1)^2 + y^2 - y - r^2 without a product,
      and the point misses the circle by no more than y. */
  ghost predicate Inv(a: Arc, r: int) {
    && 0 <= a.x <= a.y + 1 && a.y >= 0
    && a.ddx == 2 * a.x + 1 && a.ddy == -2 * a.y
    && a.f == Square(a.x + 1) + Square(a.y) - a.y - Square(r)
    && -a.y <= Miss(a.x, a.y, r) <= a.y
    && (a.x < a.y ==> Miss(a.x, a.y, r) < a.y)
  }

  lemma StartInv(r: nat)
    ensures Inv(Start(r), r)
  {
  }

  lemma NextInv(a: Arc, r: int)
    requires Inv(a, r) && a.x < a.y
    ensures Inv(Next(a), r)
    ensures Next(a).x == a.x + 1 && a.y - 1 <= Next(a).y <= a.y
  {
    SquareNext(a.x);
    SquareNext(a.x + 1);
    SquareNext(a.y - 1);
  }

  /** The octant, point by point: each misses the circle by at most its y; they stand one column
      after the other without a gap, x < y except at the last, which reaches the diagonal. */
  lemma {:induction false} OctantIs(a: Arc, r: int, i: nat)
    requires Inv(a, r) && i < |Octant(a)|
    ensures var ps := Octant(a);
      && -ps[i].y <= Miss(ps[i].x, ps[i].y, r) <= ps[i].y
      && ps[i].x == a.x + 1 + i && 0 <= ps[i].y <= a.y
      && (i == 0 ==> a.y - 1 <= ps[i].y)
      && (i + 1 < |ps| ==> ps[i].x < ps[i].y && ps[i].y - 1 <= ps[i + 1].y <= ps[i].y)
      && (i + 1 == |ps| ==> ps[i].y <= ps[i].x <= ps[i].y + 1)
    decreases i
  {
    NextInv(a, r);
    if i > 0 {
      OctantIs(Next(a), r, i - 1);
    } else if Next(a).x < Next(a).y {
      NextInv(Next(a), r);
    }
  }

  // ----- The whole circle -----

  /** The eight images of a point of the octant, in drawing order. */
  function Images(x0: int, y0: int, p: Point): seq<Point> {
    [Point(x0 + p.x, y0 + p.y), Point(x0 - p.x, y0 + p.y), Point(x0 + p.x, y0 - p.y), Point(x0 - p.x, y0 - p.y),
     Point(x0 + p.y, y0 + p.x), Point(x0 - p.y, y0 + p.x), Point(x0 + p.y, y0 - p.x), Point(x0 - p.y, y0 - p.x)]
  }

  function AllImages(x0: int, y0: int, ps: seq<Point>): seq<Point> {
    if ps == [] then [] else Images(x0, y0, ps[0]) + AllImages(x0, y0, ps[1..])
  }

  function Tips(x0: int, y0: int, r: int): seq<Point> {
    [Point(x0, y0 + r), Point(x0, y0 - r), Point(x0 + r, y0), Point(x0 - r, y0)]
  }

  function CirclePoints(x0: int, y0: int, r: int): seq<Point> {
    Tips(x0, y0, r) + AllImages(x0, y0, Octant(Start(r)))
  }

  /** The same distances from the centre, up to an exchange. */
  predicate IsImage(x0: int, y0: int, q: Point, p: Point) {
    || (Abs(p.x - x0) == Abs(q.x) && Abs(p.y - y0) == Abs(q.y))
    || (Abs(p.x - x0) == Abs(q.y) && Abs(p.y - y0) == Abs(q.x))
  }

  lemma ImagesAre(x0: int, y0: int, q: Point, p: Point)
    ensures p in Images(x0, y0, q) <==> IsImage(x0, y0, q, p)
  {
    var s := Images(x0, y0, q);
    if IsImage(x0, y0, q, p) {
      assert p == s[0] || p == s[1] || p == s[2] || p == s[3] || p == s[4] || p == s[5] || p == s[6] || p == s[7];
    }
  }

  lemma TipsAre(x0: int, y0: int, r: int, p: Point)
    ensures p in Tips(x0, y0, r) <==> IsImage(x0, y0, Point(0, r), p)
  {
    var s := Tips(x0, y0, r);
    if IsImage(x0, y0, Point(0, r), p) {
      assert p == s[0] || p == s[1] || p == s[2] || p == s[3];
    }
  }

  lemma {:induction false} InAllImages(x0: int, y0: int, ps: seq<Point>, p: Point)
    ensures p in AllImages(x0, y0, ps) <==> exists q :: q in ps && IsImage(x0, y0, q, p)
  {
    hide Images, IsImage;
    if ps != [] {
      ImagesAre(x0, y0, ps[0], p);
      InAllImages(x0, y0, ps[1..], p);
      assert forall q :: q in ps <==> q == ps[0] || q in ps[1..];
    }
  }

  /** The pixels are the images of the tip and of the points of the octant. */
  lemma OnCircleIff(x0: int, y0: int, r: int, p: Point)
    ensures p in CirclePoints(x0, y0, r) <==>
      IsImage(x0, y0, Point(0, r), p) || exists q :: q in Octant(Start(r)) && IsImage(x0, y0, q, p)
  {
    hide IsImage, Octant, Tips, AllImages;
    TipsAre(x0, y0, r, p);
    InAllImages(x0, y0, Octant(Start(r)), p);
  }

  lemma ImageMisses(x0: int, y0: int, q: Point, p: Point, r: int)
    requires IsImage(x0, y0, q, p) && 0 <= q.x && 0 <= q.y && -q.y <= Miss(q.x, q.y, r) <= q.y
    ensures var m := Max(Abs(p.x - x0), Abs(p.y - y0)); -m <= Miss(p.x - x0, p.y - y0, r) <= m
  {
    SquareNext(q.x);
    SquareNext(q.y);
    hide Square;
  }

  /** A radius that is not positive draws the four tips only. */
  lemma NegativeRadius(x0: int, y0: int, r: int, p: Point)
    requires r <= 0 && p in CirclePoints(x0, y0, r)
    ensures Miss(p.x - x0, p.y - y0, r) == 0 && Min(Abs(p.x - x0), Abs(p.y - y0)) == 0
  {
    assert Octant(Start(r)) == [] && CirclePoints(x0, y0, r) == Tips(x0, y0, r);
    TipsAre(x0, y0, r, p);
  }

  /** Every pixel asked for, before clipping, misses the circle of radius r around the centre by no
      more than its larger distance: |dx^2 + dy^2 - r^2| <= max(|dx|, |dy|). */
  lemma CircleIsRound(x0: int, y0: int, r: int, p: Point)
    requires p in CirclePoints(x0, y0, r)
    ensures var m := Max(Abs(p.x - x0), Abs(p.y - y0)); -m <= Miss(p.x - x0, p.y - y0, r) <= m
  {
    if r <= 0 {
      NegativeRadius(x0, y0, r, p);
      return;
    }
    OnCircleIff(x0, y0, r, p);
    StartInv(r);
    hide Octant, CirclePoints, Inv;
    if IsImage(x0, y0, Point(0, r), p) {
      assert Miss(0, r, r) == 0;
      ImageMisses(x0, y0, Point(0, r), p, r);
    } else {
      var ps := Octant(Start(r));
      var q :| q in ps && IsImage(x0, y0, q, p);
      var i :| 0 <= i < |ps| && ps[i] == q;
      OctantIs(Start(r), r, i);
      ImageMisses(x0, y0, q, p, r);
    }
  }

  /** The circle is symmetric: with a pixel it has its mirror images in both axes and both diagonals. */
  lemma CircleIsSymmetric(x0: int, y0: int, r: int, p: Point, q: Point)
    requires p in CirclePoints(x0, y0, r) && IsImage(x0, y0, Point(p.x - x0, p.y - y0), q)
    ensures q in CirclePoints(x0, y0, r)
  {
    OnCircleIff(x0, y0, r, p);
    OnCircleIff(x0, y0, r, q);
    hide Octant, CirclePoints;
    if !IsImage(x0, y0, Point(0, r), p) {
      var o :| o in Octant(Start(r)) && IsImage(x0, y0, o, p);
      assert IsImage(x0, y0, o, q);
    }
  }

  // ----- In place -----

  method DrawPixels(c: Canvas, fb: array<Color>, ps: seq<Point>, clr: Color)
    requires GoodCanvas(c, fb.Length)
    modifies fb
    ensures fb[..] == PlotAll(c, old(fb[..]), ps, clr)
  {
    ghost var was := fb[..];
    assert ps[..0] == [];
    for i := 0 to |ps|
      invariant fb[..] == PlotAll(c, was, ps[..i], clr)
    {
      DrawPixel(c, fb, ps[i], clr);
      PlotNext(c, was, ps[..i], ps[i], clr);
      assert ps[..i + 1] == ps[..i] + [ps[i]];
    }
    assert ps[..|ps|] == ps;
  }

  lemma {:induction false} PlotInParts(c: Canvas, s: seq<Color>, ps: seq<Point>, qs: seq<Point>, clr: Color)
    requires GoodCanvas(c, |s|)
    ensures PlotAll(c, s, ps + qs, clr) == PlotAll(c, PlotAll(c, s, ps, clr), qs, clr)
  {
    if qs == [] {
      assert ps + qs == ps;
    } else {
      var front, last := qs[..|qs| - 1], qs[|qs| - 1];
      PlotInParts(c, s, ps, front, clr);
      PlotNext(c, s, ps + front, last, clr);
      assert ps + qs == (ps + front) + [last];
    }
  }

  /** gfx_circle, not filled. */
  method DrawCircle(c: Canvas, fb: array<Color>, x0: int, y0: int, r: int, clr: Color)
    requires GoodCanvas(c, fb.Length)
    modifies fb
    ensures fb[..] == PlotAll(c, old(fb[..]), CirclePoints(x0, y0, r), clr)
  {
    ghost var was := fb[..];
    var f, ddx, ddy := 1 - r, 1, -2 * r;
    var x, y := 0, r;
    DrawPixels(c, fb, Tips(x0, y0, r), clr);
    ghost var done := Tips(x0, y0, r);
    assert done + AllImages(x0, y0, Octant(Arc(x, y, f, ddx, ddy))) == CirclePoints(x0, y0, r);
    hide PlotAll, GoodCanvas, AllImages, Octant, Images, Tips, CirclePoints;
    while x < y
      invariant fb[..] == PlotAll(c, was, done, clr)
      invariant done + AllImages(x0, y0, Octant(Arc(x, y, f, ddx, ddy))) == CirclePoints(x0, y0, r)
      decreases y - x
    {
      ghost var a := Arc(x, y, f, ddx, ddy);
      if f >= 0 {
        y := y - 1;
        ddy := ddy + 2;
        f := f + ddy;
      }
      x := x + 1;
      ddx := ddx + 2;
      f := f + ddx;
      assert Next(a) == Arc(x, y, f, ddx, ddy);
      hide Next;
      ghost var images := Images(x0, y0, Point(x, y));
      PlotInParts(c, was, done, images, clr);
      DrawPixels(c, fb, Images(x0, y0, Point(x, y)), clr);
      ImagesStep(x0, y0, a, done);
      done := done + images;
    }
    assert AllImages(x0, y0, Octant(Arc(x, y, f, ddx, ddy))) == [] by {
      NothingLeft(x0, y0, Arc(x, y, f, ddx, ddy));
    }
    assert done + [] == done;
  }

  lemma NothingLeft(x0: int, y0: int, a: Arc)
    requires a.x >= a.y
    ensures AllImages(x0, y0, Octant(a)) == []
  {
  }

  lemma ImagesStep(x0: int, y0: int, a: Arc, done: seq<Point>)
    requires a.x < a.y
    ensures done + AllImages(x0, y0, Octant(a))
      == (done + Images(x0, y0, Point(Next(a).x, Next(a).y))) + AllImages(x0, y0, Octant(Next(a)))
  {
    hide Images, Next;
    assert Octant(a)[1..] == Octant(Next(a));
  }
}
