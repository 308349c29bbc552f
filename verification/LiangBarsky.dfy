/** Clipping a line against a box. */
module LiangBarsky {
  import opened Geometry
  import opened Wrappers

  datatype Segment = Segment(t0: real, t1: real)

  /** A point of the line. */
  function On(direction: Point, position: Point, t: real): Point {
    Point(position.x + t * direction.x, position.y + t * direction.y, position.z + t * direction.z)
  }

  /** The box is centred at the origin. */
  predicate InBox(box: Point, p: Point) {
    && -box.x / 2.0 <= p.x <= box.x / 2.0
    && -box.y / 2.0 <= p.y <= box.y / 2.0
    && -box.z / 2.0 <= p.z <= box.z / 2.0
  }

  predicate Hits(direction: Point, position: Point, box: Point, t: real) {
    InBox(box, On(direction, position, t))
  }

  /** The line starts at the position and goes on by the direction. */
  lemma LineIs(direction: Point, position: Point, s: real, t: real)
    ensures On(direction, position, 0.0) == position
    ensures On(direction, position, 1.0)
         == Point(position.x + direction.x, position.y + direction.y, position.z + direction.z)
    ensures On(direction, On(direction, position, s), t) == On(direction, position, s + t)
  {}

  /** The box has its sides along the axes, is symmetric about the origin and as wide
      as it should be: two of its points differ by no more than that, and its corners
      by as much. */
  lemma BoxIs(box: Point, p: Point, q: Point)
    requires box.x >= 0.0 && box.y >= 0.0 && box.z >= 0.0
    ensures InBox(box, p) <==> InBox(box, Point(-p.x, p.y, p.z))
    ensures InBox(box, p) <==> InBox(box, Point(p.x, -p.y, p.z))
    ensures InBox(box, p) <==> InBox(box, Point(p.x, p.y, -p.z))
    ensures InBox(box, p) <==>
      InBox(box, Point(p.x, 0.0, 0.0)) && InBox(box, Point(0.0, p.y, 0.0)) && InBox(box, Point(0.0, 0.0, p.z))
    ensures InBox(box, p) && InBox(box, q) ==> p.x - q.x <= box.x && p.y - q.y <= box.y && p.z - q.z <= box.z
    ensures exists a, b ::
      InBox(box, a) && InBox(box, b) && Point(a.x - b.x, a.y - b.y, a.z - b.z) == box
  {
    var a, b := Point(box.x / 2.0, box.y / 2.0, box.z / 2.0), Point(-box.x / 2.0, -box.y / 2.0, -box.z / 2.0);
    assert InBox(box, a) && InBox(box, b) && Point(a.x - b.x, a.y - b.y, a.z - b.z) == box;
  }

  /** One half-space: where denominator * t is at least the numerator. */
  predicate Half(denominator: real, numerator: real, t: real) {
    numerator <= denominator * t
  }

  lemma HalfFrom(d: real, n: real, t: real)
    requires d != 0.0
    ensures d > 0.0 ==> (Half(d, n, t) <==> n / d <= t)
    ensures d < 0.0 ==> (Half(d, n, t) <==> t <= n / d)
  {
    var q := n / d;
    assert d * q == n;
    assert d * t - n == d * (t - q);
    assert d > 0.0 && t >= q ==> d * (t - q) >= 0.0;
    assert d > 0.0 && t < q ==> d * (t - q) < 0.0;
    assert d < 0.0 && t <= q ==> d * (t - q) >= 0.0;
    assert d < 0.0 && t > q ==> d * (t - q) < 0.0;
  }

  /** The clip lambda: cuts [t0, t1] down to its part in the half-space, or
      reports that nothing is left. */
  method Clip(denominator: real, numerator: real, t0: real, t1: real) returns (ok: bool, s: Segment)
    requires t0 <= t1
    ensures ok ==> t0 <= s.t0 <= s.t1 <= t1 && forall t: real :: s.t0 <= t <= s.t1 <==>
      t0 <= t <= t1 && Half(denominator, numerator, t)
    ensures !ok ==> forall t: real :: t0 <= t <= t1 ==> !Half(denominator, numerator, t)
  {
    s := Segment(t0, t1);
    ok := true;
    if denominator > 0.0 {
      if numerator > denominator * t1 {
        ok := false;
      } else if numerator > denominator * t0 {
        s := Segment(numerator / denominator, t1);
      }
    } else if denominator < 0.0 {
      if numerator > denominator * t0 {
        ok := false;
      } else if numerator > denominator * t1 {
        s := Segment(t0, numerator / denominator);
      }
    } else {
      ok := numerator <= 0.0;
    }
    assert Half(denominator, numerator, t1) <==> numerator <= denominator * t1;
    assert Half(denominator, numerator, t0) <==> numerator <= denominator * t0;
    forall t: real
      ensures ok ==> (s.t0 <= t <= s.t1 <==> t0 <= t <= t1 && Half(denominator, numerator, t))
      ensures !ok && t0 <= t <= t1 ==> !Half(denominator, numerator, t)
    {
      if denominator == 0.0 {
        assert denominator * t == 0.0;
      } else {
        HalfFrom(denominator, numerator, t);
        HalfFrom(denominator, numerator, t0);
        HalfFrom(denominator, numerator, t1);
      }
      hide Half;
    }
    if denominator != 0.0 {
      HalfFrom(denominator, numerator, t0);
      HalfFrom(denominator, numerator, t1);
    }
  }

  /** Two half-spaces make a slab. */
  lemma Slab(d: real, p: real, b: real, t: real)
    ensures Half(d, -p - b / 2.0, t) && Half(-d, p - b / 2.0, t) <==> -b / 2.0 <= p + t * d <= b / 2.0
  {
    assert -d * t == -(t * d);
  }

  ghost predicate InSlabs(direction: Point, position: Point, box: Point, t: real) {
    && Half(direction.x, -position.x - box.x / 2.0, t) && Half(-direction.x, position.x - box.x / 2.0, t)
    && Half(direction.y, -position.y - box.y / 2.0, t) && Half(-direction.y, position.y - box.y / 2.0, t)
    && Half(direction.z, -position.z - box.z / 2.0, t) && Half(-direction.z, position.z - box.z / 2.0, t)
  }

  lemma SlabsMakeBox(direction: Point, position: Point, box: Point, t: real)
    ensures InSlabs(direction, position, box, t) <==> Hits(direction, position, box, t)
  {
    Slab(direction.x, position.x, box.x, t);
    Slab(direction.y, position.y, box.y, t);
    Slab(direction.z, position.z, box.z, t);
    hide Half;
  }

  /** The parameters within [lowest, largest], the range of the number type, at
      which the line is in the box: none, or exactly the segment returned. */
  method IntersectionDistances(direction: Point, position: Point, box: Point, lowest: real, largest: real)
    returns (r: Option<Segment>)
    requires lowest <= largest
    ensures r.Some? ==> r.value.t0 <= r.value.t1
    ensures r.Some? ==> forall t: real ::
      lowest <= t <= largest && Hits(direction, position, box, t) <==> r.value.t0 <= t <= r.value.t1
    ensures r.None? ==> forall t: real :: lowest <= t <= largest ==> !Hits(direction, position, box, t)
  {
    hide Hits, Half;
    var ok, s := Clip(direction.x, -position.x - box.x / 2.0, lowest, largest);
    if ok { ok, s := Clip(-direction.x, position.x - box.x / 2.0, s.t0, s.t1); }
    if ok { ok, s := Clip(direction.y, -position.y - box.y / 2.0, s.t0, s.t1); }
    if ok { ok, s := Clip(-direction.y, position.y - box.y / 2.0, s.t0, s.t1); }
    if ok { ok, s := Clip(direction.z, -position.z - box.z / 2.0, s.t0, s.t1); }
    if ok { ok, s := Clip(-direction.z, position.z - box.z / 2.0, s.t0, s.t1); }
    forall t: real | lowest <= t <= largest
      ensures if ok then Hits(direction, position, box, t) <==> s.t0 <= t <= s.t1
              else !Hits(direction, position, box, t)
    {
      SlabsMakeBox(direction, position, box, t);
      assert InSlabs(direction, position, box, t) <==>
        (&& Half(direction.x, -position.x - box.x / 2.0, t) && Half(-direction.x, position.x - box.x / 2.0, t)
         && Half(direction.y, -position.y - box.y / 2.0, t) && Half(-direction.y, position.y - box.y / 2.0, t)
         && Half(direction.z, -position.z - box.z / 2.0, t) && Half(-direction.z, position.z - box.z / 2.0, t));
    }
    assert ok ==> lowest <= s.t0 <= s.t1 <= largest;
    return if ok then Some(s) else None;
  }

  /** In positive direction: from outside the point where the line enters the box,
      from inside the point where it leaves it; nothing exactly if no positive
      parameter is in the box. */
  method ClosestIntersection(direction: Point, position: Point, box: Point, lowest: real, largest: real)
    returns (r: Option<Point>, ghost at: real)
    requires lowest <= 0.0 <= largest
    ensures r.None? <==> forall t: real :: 0.0 < t <= largest ==> !Hits(direction, position, box, t)
    ensures r.Some? ==> 0.0 < at <= largest && r.value == On(direction, position, at) && InBox(box, r.value)
    ensures r.Some? && !InBox(box, position) ==>
      forall t: real :: 0.0 < t <= largest && Hits(direction, position, box, t) ==> at <= t
    ensures r.Some? && InBox(box, position) ==>
      forall t: real :: 0.0 < t <= largest && Hits(direction, position, box, t) ==> t <= at
  {
    assert On(direction, position, 0.0) == position;
    assert Hits(direction, position, box, 0.0) <==> InBox(box, position);
    at := 0.0;
    var intersect := IntersectionDistances(direction, position, box, lowest, largest);
    if intersect.None? {
      return None, at;
    }
    var t0, t1 := intersect.value.t0, intersect.value.t1;
    assert Hits(direction, position, box, t0) && Hits(direction, position, box, t1) && lowest <= t0 <= t1 <= largest;
    hide InBox;
    if t0 > 0.0 && t1 > 0.0 {
      at := if t0 < t1 then t0 else t1;
      r := Some(On(direction, position, if t0 < t1 then t0 else t1));
    } else if t0 > 0.0 {
      at := t0;
      r := Some(On(direction, position, t0));
    } else if t1 > 0.0 {
      at := t1;
      r := Some(On(direction, position, t1));
    } else {
      r := None;
    }
  }
}
