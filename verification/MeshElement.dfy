/** Barycentric interpolation in one mesh element. */
module MeshElements {
  import opened Slots
  import opened Geometry
  import opened Simplex
  import opened Barycentric

  const MIN_VOLUME: real := 0.000000000001

  // ----- what the methods compute

  function SubVolumes(dim: nat, v: seq<Point>, p: Point): (s: seq<real>)
    requires Element(dim, v)
    ensures |s| == dim + 1
  {
    seq(dim + 1, i requires 0 <= i < dim + 1 => SubVolume(dim, v, i, p))
  }

  predicate LargeEnough(volume: real, cut: real) {
    Abs(volume) >= MIN_VOLUME && Abs(volume) > cut
  }

  /** No sub-volume has the opposite sign of the volume. */
  predicate SameSigns(dim: nat, v: seq<Point>, p: Point)
    requires Element(dim, v)
  {
    forall i :: 0 <= i <= dim ==> Mul(Volume(dim, v), SubVolume(dim, v, i, p)) >= 0.0
  }

  predicate Passes(dim: nat, v: seq<Point>, cut: real, p: Point)
    requires Element(dim, v)
  {
    (cut > 0.0 ==> LargeEnough(Volume(dim, v), cut)) && SameSigns(dim, v, p)
  }

  /** The weighted mean of the values at the vertices. */
  function Observable(dim: nat, v: seq<Point>, f: seq<Point>, p: Point): Point
    requires Element(dim, v) && |f| == |v| && Volume(dim, v) != 0.0
  {
    var w := Weights(dim, v, p);
    Point(Dot(w, Coords(f, 0)), Dot(w, Coords(f, 1)), Dot(w, Coords(f, 2)))
  }

  // ----- what that means

  lemma SubVolumesSum(dim: nat, v: seq<Point>, p: Point)
    requires Element(dim, v)
    ensures Total(SubVolumes(dim, v, p)) == Volume(dim, v)
  {
    TotalOut(SubVolumes(dim, v, p));
    if dim == 3 {
      Sum4(v[0], v[1], v[2], v[3], p);
    } else {
      Sum3(v[0], v[1], v[2], p);
    }
    hide Det4, Det3;
  }

  lemma SquareSign(w: real, y: real)
    requires w >= 0.0
    ensures Mul(y, Mul(w, y)) >= 0.0
  {
    assert y * y >= 0.0;
    assert y * (w * y) == w * (y * y);
  }

  lemma QuotientSign(x: real, y: real)
    requires y != 0.0 && Mul(y, x) >= 0.0
    ensures x / y >= 0.0
  {
    var q := x / y;
    assert q * y == x;
    assert y * (q * y) == q * (y * y);
    assert y * y > 0.0;
    assert q < 0.0 ==> q * (y * y) < 0.0;
  }

  /** The sign test decides membership in the closed simplex. */
  lemma SignsDecide(dim: nat, v: seq<Point>, p: Point)
    requires Element(dim, v) && Volume(dim, v) != 0.0
    ensures SameSigns(dim, v, p) <==> InSimplex(dim, v, p)
  {
    hide Represents, Mul, Volume, SubVolume;
    var y := Volume(dim, v);
    if SameSigns(dim, v, p) {
      var w := Weights(dim, v, p);
      WeightsRepresent(dim, v, p);
      forall i | 0 <= i < |w| ensures w[i] >= 0.0 {
        QuotientSign(SubVolume(dim, v, i, p), y);
      }
      assert Represents(dim, v, p, w) && NonNegative(w);
    }
    if InSimplex(dim, v, p) {
      var w :| Represents(dim, v, p, w) && NonNegative(w);
      RepresentsSize(dim, v, p, w);
      forall i | 0 <= i <= dim ensures Mul(y, SubVolume(dim, v, i, p)) >= 0.0 {
        WeightsUnique(dim, v, p, w, i);
        SquareSign(w[i], y);
      }
    }
  }

  lemma RepresentsSize(dim: nat, v: seq<Point>, p: Point, w: seq<real>)
    requires Represents(dim, v, p, w)
    ensures |w| == |v|
  {}

  /** When an element is valid: it is large enough and the closed simplex holds
      the point. Without a cut a flat element is always valid. */
  lemma PassesIff(dim: nat, v: seq<Point>, cut: real, p: Point)
    requires Element(dim, v)
    ensures cut > 0.0 ==> (Passes(dim, v, cut, p) <==> LargeEnough(Volume(dim, v), cut) && InSimplex(dim, v, p))
    ensures cut <= 0.0 ==> (Passes(dim, v, cut, p) <==> Volume(dim, v) == 0.0 || InSimplex(dim, v, p))
  {
    hide Volume, SubVolume, InSimplex;
    if Volume(dim, v) != 0.0 {
      SignsDecide(dim, v, p);
    }
  }

  // ----- what the cut measures

  /** A simplex with legs along the axes is valid for a point in it if and only if
      there is no cut, or its volume, a sixth of the product of the legs, is at least
      1e-12 and greater than the cut. For triangles it is the area in the yz-plane. */
  lemma CutDecides(p: Point, a: real, b: real, c: real, cut: real, q: Point)
    requires a > 0.0 && b > 0.0 && c > 0.0
    ensures InSimplex(3, Corner(3, p, a, b, c), q) ==>
      (Passes(3, Corner(3, p, a, b, c), cut, q) <==>
       cut <= 0.0 || (a * b * c / 6.0 >= 0.000000000001 && a * b * c / 6.0 > cut))
    ensures InSimplex(2, Corner(2, p, a, b, c), q) ==>
      (Passes(2, Corner(2, p, a, b, c), cut, q) <==>
       cut <= 0.0 || (b * c / 2.0 >= 0.000000000001 && b * c / 2.0 > cut))
  {
    CornerVolume(p, a, b, c);
    PassesIff(3, Corner(3, p, a, b, c), cut, q);
    PassesIff(2, Corner(2, p, a, b, c), cut, q);
    hide Volume, Passes, InSimplex, Corner;
    assert a * b > 0.0 && b * c > 0.0;
    assert a * b * c > 0.0;
  }

  /** The unit simplex at the origin is valid exactly for the points between the
      axes and the plane through its tips, and for the cuts below a sixth. */
  lemma UnitTetrahedron(cut: real, q: Point)
    ensures Passes(3, Corner(3, Point(0.0, 0.0, 0.0), 1.0, 1.0, 1.0), cut, q) <==>
      cut < 1.0 / 6.0 && q.x >= 0.0 && q.y >= 0.0 && q.z >= 0.0 && q.x + q.y + q.z <= 1.0
  {
    var o := Point(0.0, 0.0, 0.0);
    var v := Corner(3, o, 1.0, 1.0, 1.0);
    CornerVolume(o, 1.0, 1.0, 1.0);
    UnitParts(q);
    hide Volume, SubVolume, Corner, SameSigns;
    PositiveSigns(3, v, q);
  }

  /** With a positive volume, the signs are the same when no part is negative. */
  lemma PositiveSigns(dim: nat, v: seq<Point>, p: Point)
    requires Element(dim, v) && Volume(dim, v) > 0.0
    ensures SameSigns(dim, v, p) <==>
      && SubVolume(dim, v, 0, p) >= 0.0 && SubVolume(dim, v, 1, p) >= 0.0 && SubVolume(dim, v, 2, p) >= 0.0
      && (dim == 3 ==> SubVolume(dim, v, 3, p) >= 0.0)
  {
    hide Volume, SubVolume, Mul;
    forall i: nat | i <= dim
      ensures Mul(Volume(dim, v), SubVolume(dim, v, i, p)) >= 0.0 <==> SubVolume(dim, v, i, p) >= 0.0
    {
      SameSign(Volume(dim, v), SubVolume(dim, v, i, p));
    }
  }

  lemma SameSign(y: real, x: real)
    requires y > 0.0
    ensures Mul(y, x) >= 0.0 <==> x >= 0.0
  {
    assert x < 0.0 ==> y * x < 0.0;
  }

  lemma UnitParts(q: Point)
    ensures var v := Corner(3, Point(0.0, 0.0, 0.0), 1.0, 1.0, 1.0);
      && SubVolume(3, v, 0, q) == (1.0 - q.x - q.y - q.z) / 6.0 && SubVolume(3, v, 1, q) == q.x / 6.0
      && SubVolume(3, v, 2, q) == q.y / 6.0 && SubVolume(3, v, 3, q) == q.z / 6.0
  {
    hide *;
    var o, x, y, z := Point(0.0, 0.0, 0.0), Point(1.0, 0.0, 0.0), Point(0.0, 1.0, 0.0), Point(0.0, 0.0, 1.0);
    UnitCorner(o, x, y, z);
    PartsOf(o, x, y, z, q);
    UnitBase(q);
    UnitTips(q);
    FromOrigin(o, q, y, z);
    FromOrigin(o, x, q, z);
    FromOrigin(o, x, y, q);
  }

  lemma UnitCorner(o: Point, x: Point, y: Point, z: Point)
    requires o == Point(0.0, 0.0, 0.0) && x == Point(1.0, 0.0, 0.0)
    requires y == Point(0.0, 1.0, 0.0) && z == Point(0.0, 0.0, 1.0)
    ensures Corner(3, o, 1.0, 1.0, 1.0) == [o, x, y, z]
  {}

  lemma PartsOf(a: Point, b: Point, c: Point, d: Point, p: Point)
    ensures SubVolume(3, [a, b, c, d], 0, p) == Det4(p, b, c, d) / 6.0
    ensures SubVolume(3, [a, b, c, d], 1, p) == Det4(a, p, c, d) / 6.0
    ensures SubVolume(3, [a, b, c, d], 2, p) == Det4(a, b, p, d) / 6.0
    ensures SubVolume(3, [a, b, c, d], 3, p) == Det4(a, b, c, p) / 6.0
  {
    hide Det4;
  }

  lemma UnitBase(q: Point)
    ensures Det4(q, Point(1.0, 0.0, 0.0), Point(0.0, 1.0, 0.0), Point(0.0, 0.0, 1.0)) == 1.0 - q.x - q.y - q.z
  {}

  lemma UnitTips(q: Point)
    ensures Det(q, Point(0.0, 1.0, 0.0), Point(0.0, 0.0, 1.0)) == q.x
    ensures Det(Point(1.0, 0.0, 0.0), q, Point(0.0, 0.0, 1.0)) == q.y
    ensures Det(Point(1.0, 0.0, 0.0), Point(0.0, 1.0, 0.0), q) == q.z
  {}

  lemma NullColumn(o: Point, p: Point, q: Point)
    requires o == Point(0.0, 0.0, 0.0)
    ensures Det(o, p, q) == 0.0
  {
    var x, y, z := p.y * q.z - q.y * p.z, p.x * q.z - q.x * p.z, p.x * q.y - q.x * p.y;
    assert Det(o, p, q) == o.x * x - o.y * y + o.z * z;
    hide Det;
  }

  lemma FromOrigin(o: Point, b: Point, c: Point, d: Point)
    requires o == Point(0.0, 0.0, 0.0)
    ensures Det4(o, b, c, d) == Det(b, c, d)
  {
    hide Det;
    NullColumn(o, c, d);
    NullColumn(o, b, d);
    NullColumn(o, b, c);
  }

  lemma UnitTriangle(cut: real, q: Point)
    ensures Passes(2, Corner(2, Point(0.0, 0.0, 0.0), 1.0, 1.0, 1.0), cut, q) <==>
      cut < 1.0 / 2.0 && q.y >= 0.0 && q.z >= 0.0 && q.y + q.z <= 1.0
  {
    var o := Point(0.0, 0.0, 0.0);
    var v := Corner(2, o, 1.0, 1.0, 1.0);
    CornerVolume(o, 1.0, 1.0, 1.0);
    assert SubVolume(2, v, 0, q) == (1.0 - q.y - q.z) / 2.0;
    assert SubVolume(2, v, 1, q) == q.y / 2.0 && SubVolume(2, v, 2, q) == q.z / 2.0;
    hide Volume, SubVolume, Corner, SameSigns;
    PositiveSigns(2, v, q);
  }

  /** A value interpolated inside the element lies between those at its vertices. */
  lemma ObservableBetween(dim: nat, v: seq<Point>, f: seq<Point>, p: Point, c: nat, lo: real, hi: real)
    requires Element(dim, v) && |f| == |v| && Volume(dim, v) != 0.0 && InSimplex(dim, v, p) && c < 3
    requires forall i :: 0 <= i < |f| ==> lo <= Coord(f[i], c) <= hi
    ensures lo <= Coord(Observable(dim, v, f, p), c) <= hi
  {
    var w := Weights(dim, v, p);
    SignsDecide(dim, v, p);
    WeightsRepresent(dim, v, p);
    assert Total(w) == 1.0;
    hide Volume, SubVolume, Represents, InSimplex, Dot, Total, Mul;
    forall i | 0 <= i < |w| ensures w[i] >= 0.0 && lo <= Coords(f, c)[i] <= hi {
      QuotientSign(SubVolume(dim, v, i, p), Volume(dim, v));
    }
    MeanBetween(w, Coords(f, c), lo, hi);
  }

  /** Interpolation reproduces an affine field, inside the element and outside. */
  lemma ObservableAffine(dim: nat, v: seq<Point>, f: seq<Point>, p: Point, c: nat, k: Point, b: real)
    requires Element(dim, v) && |f| == |v| && Volume(dim, v) != 0.0 && c < 3
    requires dim == 3 || k.x == 0.0
    requires forall i :: 0 <= i < |f| ==> Coord(f[i], c) == Affine(k, b, v[i])
    ensures Coord(Observable(dim, v, f, p), c) == Affine(k, b, p)
  {
    var w := Weights(dim, v, p);
    WeightsRepresent(dim, v, p);
    assert Relevant(dim, 1) && Relevant(dim, 2) && (dim == 3 ==> Relevant(dim, 0));
    assert Total(w) == 1.0 && Dot(w, Coords(v, 1)) == p.y && Dot(w, Coords(v, 2)) == p.z;
    assert (dim == 3 ==> Dot(w, Coords(v, 0)) == p.x);
    hide Volume, SubVolume, Represents, Dot, Total, Weights, Affine;
    MeanAffine(w, Coords(f, c), v, k, b);
    Unit(b);
    SameAffine(k, b, Point(Dot(w, Coords(v, 0)), p.y, p.z), p);
  }

  lemma SameAffine(k: Point, b: real, p: Point, q: Point)
    requires p.y == q.y && p.z == q.z && (p.x == q.x || k.x == 0.0)
    ensures Affine(k, b, p) == Affine(k, b, q)
  {}

  // ----- the order of the vertices does not matter

  lemma SwapVolume(dim: nat, v: seq<Point>, i: nat, j: nat)
    requires Element(dim, v) && i < j <= dim
    ensures Volume(dim, Swapped(v, i, j)) == -Volume(dim, v)
  {
    if dim == 3 {
      Alternates4(v[0], v[1], v[2], v[3]);
    } else {
      Alternates3(v[0], v[1], v[2]);
    }
    hide Det4, Det3;
  }

  lemma SwapDot(w: seq<real>, f: seq<real>, i: nat, j: nat)
    requires |w| == |f| && (|w| == 3 || |w| == 4) && i < j < |w|
    ensures Dot(Swapped(w, i, j), Swapped(f, i, j)) == Dot(w, f)
    ensures Total(Swapped(w, i, j)) == Total(w)
  {
    hide Dot, Total, Mul;
    DotOut(w, f);
    DotOut(Swapped(w, i, j), Swapped(f, i, j));
  }

  lemma SwapRepresents(dim: nat, v: seq<Point>, p: Point, w: seq<real>, i: nat, j: nat)
    requires Element(dim, v) && i < j <= dim && Represents(dim, v, p, w)
    ensures Represents(dim, Swapped(v, i, j), p, Swapped(w, i, j))
  {
    hide Dot, Total;
    SwapDot(w, w, i, j);
    forall c: nat | Relevant(dim, c) ensures Dot(Swapped(w, i, j), Coords(Swapped(v, i, j), c)) == Coord(p, c) {
      SwapDot(w, Coords(v, c), i, j);
      assert Coords(Swapped(v, i, j), c) == Swapped(Coords(v, c), i, j);
    }
  }

  lemma SwapInSimplex(dim: nat, v: seq<Point>, p: Point, i: nat, j: nat)
    requires Element(dim, v) && i < j <= dim && InSimplex(dim, v, p)
    ensures InSimplex(dim, Swapped(v, i, j), p)
  {
    hide Represents;
    var w :| Represents(dim, v, p, w) && NonNegative(w);
    RepresentsSize(dim, v, p, w);
    SwapRepresents(dim, v, p, w, i, j);
    assert NonNegative(Swapped(w, i, j));
  }

  lemma SwapTwice<T>(v: seq<T>, i: nat, j: nat)
    requires i < j < |v|
    ensures Swapped(Swapped(v, i, j), i, j) == v
  {}

  /** Swapping two vertices, with their values, changes neither validity nor the
      interpolated value. */
  lemma SwapIndependent(dim: nat, v: seq<Point>, f: seq<Point>, cut: real, p: Point, i: nat, j: nat)
    requires Element(dim, v) && |f| == |v| && i < j <= dim
    ensures Passes(dim, Swapped(v, i, j), cut, p) <==> Passes(dim, v, cut, p)
    ensures Volume(dim, v) != 0.0 ==>
      Volume(dim, Swapped(v, i, j)) != 0.0 &&
      Observable(dim, Swapped(v, i, j), Swapped(f, i, j), p) == Observable(dim, v, f, p)
  {
    var u, g := Swapped(v, i, j), Swapped(f, i, j);
    SwapVolume(dim, v, i, j);
    PassesIff(dim, v, cut, p);
    PassesIff(dim, u, cut, p);
    SwapTwice(v, i, j);
    hide Volume, SubVolume, Passes, InSimplex, Dot, Represents;
    if InSimplex(dim, v, p) {
      SwapInSimplex(dim, v, p, i, j);
    }
    if InSimplex(dim, u, p) {
      SwapInSimplex(dim, u, p, i, j);
    }
    if Volume(dim, v) != 0.0 {
      SwapWeights(dim, v, p, i, j);
      forall c: nat | c < 3 ensures Coords(g, c) == Swapped(Coords(f, c), i, j) {}
      SwapDot(Weights(dim, v, p), Coords(f, 0), i, j);
      SwapDot(Weights(dim, v, p), Coords(f, 1), i, j);
      SwapDot(Weights(dim, v, p), Coords(f, 2), i, j);
    }
  }

  lemma SwapWeights(dim: nat, v: seq<Point>, p: Point, i: nat, j: nat)
    requires Element(dim, v) && i < j <= dim && Volume(dim, v) != 0.0 && Volume(dim, Swapped(v, i, j)) != 0.0
    ensures Weights(dim, Swapped(v, i, j), p) == Swapped(Weights(dim, v, p), i, j)
  {
    hide Volume, SubVolume, Represents, Mul;
    var u, w := Swapped(v, i, j), Weights(dim, v, p);
    WeightsRepresent(dim, v, p);
    SwapRepresents(dim, v, p, w, i, j);
    forall k | 0 <= k <= dim ensures Weights(dim, u, p)[k] == Swapped(w, i, j)[k] {
      WeightsUnique(dim, u, p, Swapped(w, i, j), k);
      RatioOf(Swapped(w, i, j)[k], Volume(dim, u));
    }
  }

  lemma RatioOf(w: real, y: real)
    requires y != 0.0
    ensures Mul(w, y) / y == w
  {}

  // ----- matrices

  predicate Square(m: seq<seq<real>>, n: nat) {
    |m| == n && forall i :: 0 <= i < n ==> |m[i]| == n
  }

  function Determinant3(m: seq<seq<real>>): real
    requires Square(m, 3)
  {
    m[0][0] * (m[1][1] * m[2][2] - m[1][2] * m[2][1])
    - m[0][1] * (m[1][0] * m[2][2] - m[1][2] * m[2][0])
    + m[0][2] * (m[1][0] * m[2][1] - m[1][1] * m[2][0])
  }

  /** Row 0 and column c left out. */
  function Without(m: seq<seq<real>>, c: nat): (r: seq<seq<real>>)
    requires Square(m, 4) && c < 4
    ensures Square(r, 3)
  {
    [m[1][..c] + m[1][c + 1..], m[2][..c] + m[2][c + 1..], m[3][..c] + m[3][c + 1..]]
  }

  function Determinant4(m: seq<seq<real>>): real
    requires Square(m, 4)
  {
    m[0][0] * Determinant3(Without(m, 0)) - m[0][1] * Determinant3(Without(m, 1))
    + m[0][2] * Determinant3(Without(m, 2)) - m[0][3] * Determinant3(Without(m, 3))
  }

  function Columns4(a: Point, b: Point, c: Point, d: Point): (m: seq<seq<real>>)
    ensures Square(m, 4)
  {
    [[1.0, 1.0, 1.0, 1.0], [a.x, b.x, c.x, d.x], [a.y, b.y, c.y, d.y], [a.z, b.z, c.z, d.z]]
  }

  lemma Determinant4Is(a: Point, b: Point, c: Point, d: Point)
    ensures Determinant4(Columns4(a, b, c, d)) == Det4(a, b, c, d)
  {
    var m := Columns4(a, b, c, d);
    RowWithout(a.x, b.x, c.x, d.x);
    RowWithout(a.y, b.y, c.y, d.y);
    RowWithout(a.z, b.z, c.z, d.z);
    assert Without(m, 0) == Rows3(b, c, d) && Without(m, 1) == Rows3(a, c, d) && Without(m, 2) == Rows3(a, b, d);
    assert Without(m, 3) == Rows3(a, b, c);
    Determinant3Is(b, c, d);
    Determinant3Is(a, c, d);
    Determinant3Is(a, b, d);
    Determinant3Is(a, b, c);
    hide Determinant3, Det, Without;
  }

  function Rows3(p: Point, q: Point, r: Point): (m: seq<seq<real>>)
    ensures Square(m, 3)
  {
    [[p.x, q.x, r.x], [p.y, q.y, r.y], [p.z, q.z, r.z]]
  }

  lemma Determinant3Is(p: Point, q: Point, r: Point)
    ensures Determinant3(Rows3(p, q, r)) == Det(p, q, r)
  {}

  lemma RowWithout(p: real, q: real, r: real, s: real)
    ensures var t := [p, q, r, s];
      t[..0] + t[1..] == [q, r, s] && t[..1] + t[2..] == [p, r, s] && t[..2] + t[3..] == [p, q, s] &&
      t[..3] + t[4..] == [p, q, r]
  {}

  lemma Determinant3Rows(a: Point, b: Point, c: Point)
    ensures Determinant3([[1.0, 1.0, 1.0], [a.y, b.y, c.y], [a.z, b.z, c.z]]) == Det3(a, b, c)
  {}

  datatype SubVolumeResult = Value(volume: real) | LogicError

  class MeshElement {
    const dimension: nat
    const vertices: seq<Point>
    const eField: seq<Point>
    var volume: real

    /** Only the first dimension + 1 of the four vertices are used. */
    predicate Shaped() {
      (dimension == 2 || dimension == 3) && |vertices| == 4 && |eField| == 4
    }

    function Used(): (v: seq<Point>)
      requires Shaped()
      ensures Element(dimension, v)
    {
      vertices[..dimension + 1]
    }

    ghost predicate Valid()
      reads this
    {
      Shaped() && volume == Volume(dimension, Used())
    }

    constructor (dimension: nat, vertices: seq<Point>, eField: seq<Point>)
      requires (dimension == 2 || dimension == 3) && |vertices| == 4 && |eField| == 4
      ensures Valid() && this.dimension == dimension && this.vertices == vertices && this.eField == eField
    {
      this.dimension, this.vertices, this.eField := dimension, vertices, eField;
      volume := 0.0;
      new;
      CalculateVolume();
    }

    method CalculateVolume()
      requires Shaped()
      modifies this`volume
      ensures Valid()
    {
      hide Determinant3, Determinant4, Det3, Det4;
      var v := vertices;
      if dimension == 3 {
        Determinant4Is(v[0], v[1], v[2], v[3]);
        volume := Determinant4([[1.0, 1.0, 1.0, 1.0], [v[0].x, v[1].x, v[2].x, v[3].x],
                                [v[0].y, v[1].y, v[2].y, v[3].y], [v[0].z, v[1].z, v[2].z, v[3].z]]) / 6.0;
      }
      if dimension == 2 {
        Determinant3Rows(v[0], v[1], v[2]);
        volume := Determinant3([[1.0, 1.0, 1.0], [v[0].y, v[1].y, v[2].y], [v[0].z, v[1].z, v[2].z]]) / 2.0;
      }
    }

    method GetSubVolume(index: nat, p: Point) returns (r: SubVolumeResult)
      requires Shaped()
      ensures r == if index <= dimension then Value(SubVolume(dimension, Used(), index, p)) else LogicError
    {
      hide Determinant3, Determinant4, Det3, Det4;
      var v := vertices;
      if index > dimension {
        return LogicError;
      }
      if dimension == 3 {
        var m := match index
          case 0 =>
            [[1.0, 1.0, 1.0, 1.0], [p.x, v[1].x, v[2].x, v[3].x], [p.y, v[1].y, v[2].y, v[3].y],
             [p.z, v[1].z, v[2].z, v[3].z]]
          case 1 =>
            [[1.0, 1.0, 1.0, 1.0], [v[0].x, p.x, v[2].x, v[3].x], [v[0].y, p.y, v[2].y, v[3].y],
             [v[0].z, p.z, v[2].z, v[3].z]]
          case 2 =>
            [[1.0, 1.0, 1.0, 1.0], [v[0].x, v[1].x, p.x, v[3].x], [v[0].y, v[1].y, p.y, v[3].y],
             [v[0].z, v[1].z, p.z, v[3].z]]
          case _ =>
            [[1.0, 1.0, 1.0, 1.0], [v[0].x, v[1].x, v[2].x, p.x], [v[0].y, v[1].y, v[2].y, p.y],
             [v[0].z, v[1].z, v[2].z, p.z]];
        ghost var u := v[index := p];
        Determinant4Is(u[0], u[1], u[2], u[3]);
        assert m == Columns4(u[0], u[1], u[2], u[3]);
        return Value(Determinant4(m) / 6.0);
      } else {
        var m := match index
          case 0 => [[1.0, 1.0, 1.0], [p.y, v[1].y, v[2].y], [p.z, v[1].z, v[2].z]]
          case 1 => [[1.0, 1.0, 1.0], [v[0].y, p.y, v[2].y], [v[0].z, p.z, v[2].z]]
          case _ => [[1.0, 1.0, 1.0], [v[0].y, v[1].y, p.y], [v[0].z, v[1].z, p.z]];
        ghost var u := v[index := p];
        Determinant3Rows(u[0], u[1], u[2]);
        assert m == [[1.0, 1.0, 1.0], [u[0].y, u[1].y, u[2].y], [u[0].z, u[1].z, u[2].z]];
        return Value(Determinant3(m) / 2.0);
      }
    }

    method IsValid(volumeCut: real, qp: Point) returns (valid: bool)
      requires Valid()
      ensures valid == Passes(dimension, Used(), volumeCut, qp)
    {
      hide Volume, SubVolume;
      if volumeCut > 0.0 {
        if Abs(volume) < MIN_VOLUME {
          return false;
        }
        if Abs(volume) <= volumeCut {
          return false;
        }
      }
      for i := 0 to dimension + 1
        invariant forall k :: 0 <= k < i ==> Mul(Volume(dimension, Used()), SubVolume(dimension, Used(), k, qp)) >= 0.0
      {
        var sub := GetSubVolume(i, qp);
        if Mul(volume, sub.volume) < 0.0 {
          return false;
        }
      }
      return true;
    }

    method GetObservable(qp: Point) returns (observable: Point)
      requires Valid() && volume != 0.0
      ensures observable == Observable(dimension, Used(), eField[..dimension + 1], qp)
    {
      hide Volume, SubVolume, Dot, Mul;
      ghost var w, f := Weights(dimension, Used(), qp), eField[..dimension + 1];
      observable := Point(0.0, 0.0, 0.0);
      NoTerms(w, f);
      for index := 0 to dimension + 1
        invariant observable.x == Dot(w[..index], Coords(f, 0)[..index])
        invariant observable.y == Dot(w[..index], Coords(f, 1)[..index])
        invariant observable.z == Dot(w[..index], Coords(f, 2)[..index])
      {
        var sub := GetSubVolume(index, qp);
        var e := eField[index];
        DotNext(w, Coords(f, 0), index);
        DotNext(w, Coords(f, 1), index);
        DotNext(w, Coords(f, 2), index);
        Regroup(sub.volume, e.x, volume);
        Regroup(sub.volume, e.y, volume);
        Regroup(sub.volume, e.z, volume);
        observable := Point(observable.x + Mul(sub.volume, e.x) / volume,
                            observable.y + Mul(sub.volume, e.y) / volume,
                            observable.z + Mul(sub.volume, e.z) / volume);
      }
      AllTerms(w, f);
    }
  }

  lemma Regroup(s: real, f: real, y: real)
    requires y != 0.0
    ensures Mul(s, f) / y == Mul(s / y, f)
  {
    Quotient(s, y);
    Quotient(Mul(s, f), y);
    Cancel(y, Mul(s, f) / y, Mul(s / y, f));
  }

  lemma NoTerms(w: seq<real>, f: seq<Point>)
    requires |w| == |f|
    ensures forall c: nat :: c < 3 ==> Dot(w[..0], Coords(f, c)[..0]) == 0.0
  {}

  lemma AllTerms(w: seq<real>, f: seq<Point>)
    requires |w| == |f|
    ensures w[..|w|] == w && forall c: nat :: c < 3 ==> Coords(f, c)[..|w|] == Coords(f, c)
  {}

  lemma DotNext(w: seq<real>, f: seq<real>, i: nat)
    requires |w| == |f| && i < |w|
    ensures Dot(w[..i + 1], f[..i + 1]) == Dot(w[..i], f[..i]) + Mul(w[i], f[i])
  {
    assert Products(w[..i + 1], f[..i + 1])[..i] == Products(w[..i], f[..i]);
  }
}
