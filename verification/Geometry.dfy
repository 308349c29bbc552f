/** Points, the three distances of the octree, and the cubes its octants occupy. */
module Geometry {

  datatype Point = Point(x: real, y: real, z: real)

  function Abs(r: real): (a: real)
    ensures a >= 0.0 && (a == r || a == -r)
  {
    if r < 0.0 then -r else r
  }

  function Max(a: real, b: real): (m: real)
    ensures m >= a && m >= b && (m == a || m == b)
  {
    if b > a then b else a
  }

  /** A distance that starts out infinite. */
  datatype Extended = Infinite | Finite(value: real)
  {
    predicate Above(d: real) {
      Infinite? || d < value
    }

    predicate Exceeded(d: real) {
      Finite? && d > value
    }
  }

  /** L1Distance, L2Distance and MaxDistance. The square root is a parameter of
      the second: any function that inverts squaring on non-negative numbers. */
  datatype Metric = Manhattan | Euclidean(root: real -> real) | Maximum
  {
    ghost predicate Valid() {
      Euclidean? ==> forall s: real :: s >= 0.0 ==> root(s) >= 0.0 && root(s) * root(s) == s
    }

    function Compute(p: Point, q: Point): real {
      match this
      case Manhattan => Abs(p.x - q.x) + Abs(p.y - q.y) + Abs(p.z - q.z)
      case Euclidean(_) => (p.x - q.x) * (p.x - q.x) + (p.y - q.y) * (p.y - q.y) + (p.z - q.z) * (p.z - q.z)
      case Maximum => Max(Max(Abs(p.x - q.x), Abs(p.y - q.y)), Abs(p.z - q.z))
    }

    function Norm(x: real, y: real, z: real): real {
      match this
      case Manhattan => Abs(x) + Abs(y) + Abs(z)
      case Euclidean(_) => x * x + y * y + z * z
      case Maximum => Max(Max(x, y), z)
    }

    function Sqr(r: real): real {
      if Euclidean? then r * r else r
    }

    function Sqrt(s: real): real {
      if Euclidean? then root(s) else s
    }

    function SqrOf(d: Extended): Extended {
      if d.Finite? then Finite(Sqr(d.value)) else Infinite
    }

    function SqrtOf(d: Extended): Extended {
      if d.Finite? then Finite(Sqrt(d.value)) else Infinite
    }
  }

  lemma SquareMonotone(a: real, b: real)
    requires 0.0 <= a <= b
    ensures a * a <= b * b
  {
    assert b * b - a * a == (b - a) * (b + a);
  }

  lemma SqrMonotone(m: Metric, a: real, b: real)
    requires 0.0 <= a <= b
    ensures m.Sqr(a) <= m.Sqr(b)
  {
    SquareMonotone(a, b);
  }

  lemma SqrReflects(m: Metric, a: real, b: real)
    requires 0.0 <= a && 0.0 <= b && m.Sqr(a) <= m.Sqr(b)
    ensures a <= b
  {
    if m.Euclidean? && b < a {
      SquareStrict(b, a);
    }
  }

  lemma SquareStrict(a: real, b: real)
    requires 0.0 <= a < b
    ensures a * a < b * b
  {
    SquareMonotone(a, b);
    assert b * b - a * b == (b - a) * b > 0.0;
    assert a * b - a * a == (b - a) * a >= 0.0;
  }

  /** sqr and sqrt are inverse to each other on non-negative numbers. */
  lemma SqrtInverse(m: Metric, s: real)
    requires m.Valid() && s >= 0.0
    ensures m.Sqrt(s) >= 0.0 && m.Sqr(m.Sqrt(s)) == s && m.Sqrt(m.Sqr(s)) == s
  {
    if m.Euclidean? {
      assert s * s >= 0.0;
      var r := m.root(s * s);
      SqrReflects(m, r, s);
      SqrReflects(m, s, r);
    }
  }

  lemma NormMonotone(m: Metric, x: real, y: real, z: real, x': real, y': real, z': real)
    requires 0.0 <= x <= x' && 0.0 <= y <= y' && 0.0 <= z <= z'
    ensures m.Norm(x, y, z) <= m.Norm(x', y', z')
  {
    SquareMonotone(x, x');
    SquareMonotone(y, y');
    SquareMonotone(z, z');
  }

  /** No coordinate difference exceeds the norm. */
  lemma NormBounds(m: Metric, x: real, y: real, z: real)
    requires x >= 0.0 && y >= 0.0 && z >= 0.0
    ensures m.Norm(x, y, z) >= m.Sqr(x) >= 0.0
    ensures m.Norm(x, y, z) >= m.Sqr(y) >= 0.0
    ensures m.Norm(x, y, z) >= m.Sqr(z) >= 0.0
  {
    SquareMonotone(0.0, x);
    SquareMonotone(0.0, y);
    SquareMonotone(0.0, z);
  }

  lemma AbsSquare(a: real)
    ensures Abs(a) * Abs(a) == a * a
  {}

  /** The distance of two points is the norm of their coordinate differences. */
  lemma ComputeIsNorm(m: Metric, p: Point, q: Point)
    ensures m.Compute(p, q) == m.Norm(Abs(p.x - q.x), Abs(p.y - q.y), Abs(p.z - q.z)) >= 0.0
  {
    hide *;
    var x, y, z := p.x - q.x, p.y - q.y, p.z - q.z;
    if m.Euclidean? {
      EuclideanIsNorm(m, p, q);
    } else {
      OtherIsNorm(m, p, q);
    }
    NormBounds(m, Abs(x), Abs(y), Abs(z));
  }

  /** Along one axis, whichever it is, the distance is the difference of the
      coordinates, squared under the Euclidean distance. */
  lemma AlongAxis(m: Metric, p: Point, d: real)
    ensures m.Compute(p, Point(p.x + d, p.y, p.z)) == if m.Euclidean? then d * d else if d < 0.0 then -d else d
    ensures m.Compute(p, Point(p.x, p.y + d, p.z)) == if m.Euclidean? then d * d else if d < 0.0 then -d else d
    ensures m.Compute(p, Point(p.x, p.y, p.z + d)) == if m.Euclidean? then d * d else if d < 0.0 then -d else d
    ensures m.Sqr(Abs(d)) == if m.Euclidean? then d * d else if d < 0.0 then -d else d
  {
    assert (-d) * (-d) == d * d && p.x - (p.x + d) == p.y - (p.y + d) == p.z - (p.z + d) == -d;
  }

  /** From p to q along the axes, one after the other: the first and the second
      distance add up what the parts of the way contribute. */
  lemma PartsAddUp(m: Metric, p: Point, q: Point)
    requires !m.Maximum?
    ensures var a, b := Point(q.x, p.y, p.z), Point(q.x, q.y, p.z);
      m.Compute(p, q) == m.Compute(p, a) + m.Compute(a, b) + m.Compute(b, q)
    ensures var a := Point(q.x, p.y, p.z); m.Compute(p, q) == m.Compute(p, a) + m.Compute(a, q)
  {
    if m.Euclidean? {
      SquaresAddUp(m, p, q);
    }
  }

  lemma SquaresAddUp(m: Metric, p: Point, q: Point)
    requires m.Euclidean?
    ensures var a, b := Point(q.x, p.y, p.z), Point(q.x, q.y, p.z);
      && m.Compute(p, q) == m.Compute(p, a) + m.Compute(a, b) + m.Compute(b, q)
      && m.Compute(p, q) == m.Compute(p, a) + m.Compute(a, q)
  {
    hide Metric.Compute;
    var a, b := Point(q.x, p.y, p.z), Point(q.x, q.y, p.z);
    var x, y, z := p.x - q.x, p.y - q.y, p.z - q.z;
    Squares(m, p, q, x, y, z);
    Squares(m, p, a, x, 0.0, 0.0);
    Squares(m, a, b, 0.0, y, 0.0);
    Squares(m, b, q, 0.0, 0.0, z);
    Squares(m, a, q, 0.0, y, z);
  }

  lemma Squares(m: Metric, p: Point, q: Point, x: real, y: real, z: real)
    requires m.Euclidean? && x == p.x - q.x && y == p.y - q.y && z == p.z - q.z
    ensures m.Compute(p, q) == x * x + y * y + z * z
  {}

  /** The third takes the greatest part. */
  lemma GreatestPart(m: Metric, p: Point, q: Point)
    requires m.Maximum?
    ensures var a, b := Point(q.x, p.y, p.z), Point(q.x, q.y, p.z);
      var x, y, z := m.Compute(p, a), m.Compute(a, b), m.Compute(b, q);
      && m.Compute(p, q) >= x && m.Compute(p, q) >= y && m.Compute(p, q) >= z
      && (m.Compute(p, q) == x || m.Compute(p, q) == y || m.Compute(p, q) == z)
  {}

  lemma EuclideanIsNorm(m: Metric, p: Point, q: Point)
    requires m.Euclidean?
    ensures m.Compute(p, q) == m.Norm(Abs(p.x - q.x), Abs(p.y - q.y), Abs(p.z - q.z))
  {
    hide Abs;
    AbsSquare(p.x - q.x);
    AbsSquare(p.y - q.y);
    AbsSquare(p.z - q.z);
  }

  lemma OtherIsNorm(m: Metric, p: Point, q: Point)
    requires !m.Euclidean?
    ensures m.Compute(p, q) == m.Norm(Abs(p.x - q.x), Abs(p.y - q.y), Abs(p.z - q.z))
  {
    hide Max;
  }

  /** A cube by its centre and half its side. */
  datatype Cube = Cube(x: real, y: real, z: real, extent: real)
  {
    predicate Has(p: Point) {
      Abs(p.x - x) <= extent && Abs(p.y - y) <= extent && Abs(p.z - z) <= extent
    }

    /** p is not in the interior. */
    predicate Outside(p: Point) {
      Abs(p.x - x) >= extent || Abs(p.y - y) >= extent || Abs(p.z - z) >= extent
    }

    /** The octant of the cube in which p falls. */
    function Code(p: Point): (c: nat)
      ensures c < 8
    {
      (if p.x > x then 1 else 0) + (if p.y > y then 2 else 0) + (if p.z > z then 4 else 0)
    }

    function Sub(c: nat): Cube {
      Cube(x + Factor(c) * extent, y + Factor(c / 2) * extent, z + Factor(c / 4) * extent, 0.5 * extent)
    }
  }

  function Factor(bit: nat): real {
    if bit % 2 == 1 then 0.5 else -0.5
  }

  /** Every point of the cube falls into the sub-cube that its code names. */
  lemma SubHas(o: Cube, p: Point)
    requires o.Has(p)
    ensures o.Sub(o.Code(p)).Has(p)
  {
    CodeBits(o, p);
  }

  /** The octants are numbered by z first, then y, then x, the lower half first. */
  lemma OctantOrder(o: Cube, p: Point, q: Point)
    ensures o.Code(p) < o.Code(q) <==>
      || p.z <= o.z < q.z
      || ((p.z <= o.z <==> q.z <= o.z) && (p.y <= o.y < q.y || ((p.y <= o.y <==> q.y <= o.y) && p.x <= o.x < q.x)))
  {
    CodeBits(o, p);
    CodeBits(o, q);
    ByBits(o.Code(p));
    ByBits(o.Code(q));
    hide Cube.Code;
  }

  lemma CodeBits(o: Cube, p: Point)
    ensures o.Code(p) % 2 == 1 <==> p.x > o.x
    ensures o.Code(p) / 2 % 2 == 1 <==> p.y > o.y
    ensures o.Code(p) / 4 % 2 == 1 <==> p.z > o.z
  {}

  lemma ByBits(c: nat)
    requires c < 8
    ensures c == c % 2 + 2 * (c / 2 % 2) + 4 * (c / 4 % 2)
  {}

  lemma BitsDetermine(c: nat, d: nat)
    requires c < 8 && d < 8
    requires c % 2 == d % 2 && c / 2 % 2 == d / 2 % 2 && c / 4 % 2 == d / 4 % 2
    ensures c == d
  {
    ByBits(c);
    ByBits(d);
  }

  /** A point that falls into another sub-cube is not in the interior of this one. */
  lemma SubApart(o: Cube, p: Point, c: nat)
    requires c < 8 && o.Code(p) != c
    ensures o.Sub(c).Outside(p)
  {
    CodeBits(o, p);
    var d := o.Code(p);
    if c % 2 == d % 2 && c / 2 % 2 == d / 2 % 2 {
      if c / 4 % 2 == d / 4 % 2 {
        BitsDetermine(c, d);
      }
    }
  }

  /** The interior of a sub-cube is part of the interior of the cube. */
  lemma SubInterior(o: Cube, p: Point, c: nat)
    requires o.Outside(p)
    ensures o.Sub(c).Outside(p)
  {}

  // ----- the tests that prune the search

  /** The search ball contains the whole cube. */
  predicate Contains(m: Metric, q: Point, sqRadius: real, o: Cube) {
    m.Norm(Abs(q.x - o.x) + o.extent, Abs(q.y - o.y) + o.extent, Abs(q.z - o.z) + o.extent) < sqRadius
  }

  /** The search ball may meet the cube. */
  predicate Overlaps(m: Metric, q: Point, radius: Extended, sqRadius: Extended, o: Cube) {
    var x, y, z := Abs(q.x - o.x), Abs(q.y - o.y), Abs(q.z - o.z);
    if radius.Exceeded(x - o.extent) || radius.Exceeded(y - o.extent) || radius.Exceeded(z - o.extent) then
      false
    else if (if x < o.extent then 1 else 0) + (if y < o.extent then 1 else 0) + (if z < o.extent then 1 else 0) > 1 then
      true
    else
      sqRadius.Above(m.Norm(Max(x - o.extent, 0.0), Max(y - o.extent, 0.0), Max(z - o.extent, 0.0)))
  }

  /** The search ball is inside the cube. */
  predicate Inside(q: Point, radius: Extended, o: Cube) {
    && radius.Finite?
    && Abs(q.x - o.x) + radius.value <= o.extent
    && Abs(q.y - o.y) + radius.value <= o.extent
    && Abs(q.z - o.z) + radius.value <= o.extent
  }

  lemma ContainsSound(m: Metric, q: Point, sqRadius: real, o: Cube, p: Point)
    requires o.Has(p) && Contains(m, q, sqRadius, o)
    ensures m.Compute(q, p) < sqRadius
  {
    hide Metric.Compute, Metric.Norm;
    ComputeIsNorm(m, q, p);
    NormMonotone(m, Abs(q.x - p.x), Abs(q.y - p.y), Abs(q.z - p.z),
                 Abs(q.x - o.x) + o.extent, Abs(q.y - o.y) + o.extent, Abs(q.z - o.z) + o.extent);
  }

  lemma FarInOne(m: Metric, q: Point, p: Point, radius: real)
    requires radius >= 0.0
    requires Abs(q.x - p.x) >= radius || Abs(q.y - p.y) >= radius || Abs(q.z - p.z) >= radius
    ensures m.Compute(q, p) >= m.Sqr(radius)
  {
    hide Metric.Compute, Metric.Norm, Metric.Sqr;
    ComputeIsNorm(m, q, p);
    var x, y, z := Abs(q.x - p.x), Abs(q.y - p.y), Abs(q.z - p.z);
    NormBounds(m, x, y, z);
    if x >= radius {
      SqrMonotone(m, radius, x);
    } else if y >= radius {
      SqrMonotone(m, radius, y);
    } else {
      SqrMonotone(m, radius, z);
    }
  }

  /** Where Overlaps fails, no point of the cube is closer than the radius, also
      when the squared radius passed is out of date and too large. */
  lemma OverlapsSound(m: Metric, q: Point, radius: Extended, sqRadius: Extended, o: Cube, p: Point)
    requires radius.Finite? ==> radius.value >= 0.0
    requires sqRadius.Finite? ==> radius.Finite? && m.Sqr(radius.value) <= sqRadius.value
    requires o.Has(p) && !Overlaps(m, q, radius, sqRadius, o)
    ensures radius.Finite? && m.Compute(q, p) >= m.Sqr(radius.value)
  {
    hide Metric.Compute, Metric.Norm, Metric.Sqr;
    var x, y, z := Abs(q.x - o.x), Abs(q.y - o.y), Abs(q.z - o.z);
    if radius.Exceeded(x - o.extent) || radius.Exceeded(y - o.extent) || radius.Exceeded(z - o.extent) {
      FarInOne(m, q, p, radius.value);
    } else {
      ComputeIsNorm(m, q, p);
      NormMonotone(m, Max(x - o.extent, 0.0), Max(y - o.extent, 0.0), Max(z - o.extent, 0.0),
                   Abs(q.x - p.x), Abs(q.y - p.y), Abs(q.z - p.z));
    }
  }

  /** What is not in the interior of a cube that has the search ball inside is
      not closer than the radius. */
  lemma InsideSound(m: Metric, q: Point, radius: Extended, o: Cube, p: Point)
    requires Inside(q, radius, o) && radius.value >= 0.0 && o.Outside(p)
    ensures m.Compute(q, p) >= m.Sqr(radius.value)
  {
    FarInOne(m, q, p, radius.value);
  }

  /** No cube that Overlaps rejects for the radius holds a point closer than it. */
  ghost predicate RejectsOnlyFar(m: Metric, r: real) {
    forall q: Point, o: Cube, p: Point :: o.Has(p) && !Overlaps(m, q, Finite(r), Finite(m.Sqr(r)), o) ==>
      m.Compute(q, p) >= m.Sqr(r)
  }

  /** Exactly for which radii Overlaps is sound: a negative one breaks it under
      the Euclidean distance, since its square is that of the positive one. */
  lemma OverlapsExact(m: Metric, r: real)
    ensures RejectsOnlyFar(m, r) <==> !(m.Euclidean? && r < 0.0)
  {
    hide Overlaps;
    if m.Euclidean? && r < 0.0 {
      var q, o := Point(0.0, 0.0, 0.0), Cube(0.0, 0.0, 0.0, -r / 4.0);
      NegativeRejects(m, r, q, o);
    } else {
      forall q: Point, o: Cube, p: Point | o.Has(p) && !Overlaps(m, q, Finite(r), Finite(m.Sqr(r)), o)
        ensures m.Compute(q, p) >= m.Sqr(r)
      {
        if r >= 0.0 {
          OverlapsSound(m, q, Finite(r), Finite(m.Sqr(r)), o, p);
        } else {
          ComputeIsNorm(m, q, p);
        }
      }
    }
  }

  /** A cube around the query itself is rejected. */
  lemma NegativeRejects(m: Metric, r: real, q: Point, o: Cube)
    requires m.Euclidean? && r < 0.0 && q == Point(0.0, 0.0, 0.0) && o == Cube(0.0, 0.0, 0.0, -r / 4.0)
    ensures o.Has(q) && m.Compute(q, q) < m.Sqr(r) && !Overlaps(m, q, Finite(r), Finite(m.Sqr(r)), o)
  {
    SqrPositive(m, r);
    assert m.Compute(q, q) == 0.0;
    hide Metric.Sqr, Metric.Compute;
  }

  lemma SqrPositive(m: Metric, r: real)
    requires m.Euclidean? && r < 0.0
    ensures m.Sqr(r) > 0.0
  {
    var s := -r;
    assert r * r == s * s;
    SquareStrict(0.0, s);
  }
}
