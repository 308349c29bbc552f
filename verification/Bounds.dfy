/** The axis-aligned bounding box of the points and the root cube made of it. */
module Bounds {
  import opened Slots
  import opened Geometry
  import opened Octants

  ghost predicate Attained(pts: seq<Point>, list: seq<nat>, r: real, f: Point -> real)
    requires Within(list, |pts|)
  {
    exists k :: 0 <= k < |list| && f(pts[list[k]]) == r
  }

  /** lo and hi bound the listed points from both sides and are attained along x. */
  ghost predicate Bound(pts: seq<Point>, list: seq<nat>, lo: real, hi: real, f: Point -> real)
    requires Within(list, |pts|)
  {
    && (forall k :: 0 <= k < |list| ==> lo <= f(pts[list[k]]) <= hi)
    && Attained(pts, list, lo, f) && Attained(pts, list, hi, f)
  }

  ghost predicate Box(pts: seq<Point>, list: seq<nat>, lo: Point, hi: Point)
    requires Within(list, |pts|)
  {
    && Bound(pts, list, lo.x, hi.x, (p: Point) => p.x)
    && Bound(pts, list, lo.y, hi.y, (p: Point) => p.y)
    && Bound(pts, list, lo.z, hi.z, (p: Point) => p.z)
  }

  function Lower(lo: Point, p: Point): Point {
    Point(if p.x < lo.x then p.x else lo.x, if p.y < lo.y then p.y else lo.y, if p.z < lo.z then p.z else lo.z)
  }

  function Upper(hi: Point, p: Point): Point {
    Point(if p.x > hi.x then p.x else hi.x, if p.y > hi.y then p.y else hi.y, if p.z > hi.z then p.z else hi.z)
  }

  lemma BoundStep(pts: seq<Point>, list: seq<nat>, lo: real, hi: real, f: Point -> real, idx: nat)
    requires Within(list, |pts|) && idx < |pts| && Bound(pts, list, lo, hi, f)
    ensures Within(list + [idx], |pts|)
    ensures var r := f(pts[idx]);
      Bound(pts, list + [idx], if r < lo then r else lo, if r > hi then r else hi, f)
  {
    var more := list + [idx];
    var r := f(pts[idx]);
    assert f(pts[more[|list|]]) == r;
    var j :| 0 <= j < |list| && f(pts[list[j]]) == lo;
    var k :| 0 <= k < |list| && f(pts[list[k]]) == hi;
    assert f(pts[more[j]]) == lo && f(pts[more[k]]) == hi;
  }

  lemma BoxStep(pts: seq<Point>, list: seq<nat>, lo: Point, hi: Point, idx: nat)
    requires Within(list, |pts|) && idx < |pts| && Box(pts, list, lo, hi)
    ensures Within(list + [idx], |pts|)
    ensures Box(pts, list + [idx], Lower(lo, pts[idx]), Upper(hi, pts[idx]))
  {
    hide Bound;
    BoundStep(pts, list, lo.x, hi.x, (p: Point) => p.x, idx);
    BoundStep(pts, list, lo.y, hi.y, (p: Point) => p.y, idx);
    BoundStep(pts, list, lo.z, hi.z, (p: Point) => p.z, idx);
  }

  lemma BoxOfOne(pts: seq<Point>, idx: nat)
    requires idx < |pts|
    ensures Within([idx], |pts|) && Box(pts, [idx], pts[idx], pts[idx])
  {
    assert [idx][0] == idx;
  }

  /** The centre of the box and half of its longest side. */
  method RootCube(lo: Point, hi: Point, ghost pts: seq<Point>, ghost list: seq<nat>) returns (o: Cube)
    requires Within(list, |pts|) && list != [] && Box(pts, list, lo, hi)
    ensures AllIn(o, pts, list) && o.extent >= 0.0
    ensures o.extent == 0.0 <==> Coincide(pts, list)
    ensures o.x == (lo.x + hi.x) / 2.0 && o.y == (lo.y + hi.y) / 2.0 && o.z == (lo.z + hi.z) / 2.0
    ensures o.extent == Max(Max(hi.x - lo.x, hi.y - lo.y), hi.z - lo.z) / 2.0
  {
    var maxextent := 0.5 * (hi.x - lo.x);
    var x := lo.x + maxextent;
    var extent := 0.5 * (hi.y - lo.y);
    var y := lo.y + extent;
    if extent > maxextent {
      maxextent := extent;
    }
    extent := 0.5 * (hi.z - lo.z);
    var z := lo.z + extent;
    if extent > maxextent {
      maxextent := extent;
    }
    o := Cube(x, y, z, maxextent);
    CubeFits(lo, hi, pts, list, o);
    CubeTight(lo, hi, pts, list, o.extent);
  }

  lemma CubeFits(lo: Point, hi: Point, pts: seq<Point>, list: seq<nat>, o: Cube)
    requires Within(list, |pts|) && list != [] && Box(pts, list, lo, hi)
    requires o.x == (lo.x + hi.x) / 2.0 && o.y == (lo.y + hi.y) / 2.0 && o.z == (lo.z + hi.z) / 2.0
    requires o.extent == Max(Max(hi.x - lo.x, hi.y - lo.y), hi.z - lo.z) / 2.0
    ensures AllIn(o, pts, list)
  {
    forall k | 0 <= k < |list| ensures o.Has(pts[list[k]]) {
      var p := pts[list[k]];
      assert lo.x <= p.x <= hi.x && lo.y <= p.y <= hi.y && lo.z <= p.z <= hi.z;
    }
  }

  /** The root cube is a single location exactly if all points are at one. */
  lemma CubeTight(lo: Point, hi: Point, pts: seq<Point>, list: seq<nat>, extent: real)
    requires Within(list, |pts|) && list != [] && Box(pts, list, lo, hi)
    requires extent == Max(Max(hi.x - lo.x, hi.y - lo.y), hi.z - lo.z) / 2.0
    ensures extent >= 0.0
    ensures extent == 0.0 <==> Coincide(pts, list)
  {
    var q := pts[list[0]];
    assert lo.x <= q.x <= hi.x && lo.y <= q.y <= hi.y && lo.z <= q.z <= hi.z;
    assert Coincide(pts, list) ==> forall k :: 0 <= k < |list| ==> pts[list[k]] == q;
  }
}
