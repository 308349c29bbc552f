/** Volumes of tetrahedra and triangles as determinants, and barycentric coordinates. */
module Simplex {
  import opened Geometry

  /** The determinant with the columns p, q, r. */
  function Det(p: Point, q: Point, r: Point): real {
    p.x * (q.y * r.z - r.y * q.z) - p.y * (q.x * r.z - r.x * q.z) + p.z * (q.x * r.y - r.x * q.y)
  }

  /** The determinant with the columns (1, x, y, z) of four points, expanded along the ones. */
  function Det4(a: Point, b: Point, c: Point, d: Point): real {
    Det(b, c, d) - Det(a, c, d) + Det(a, b, d) - Det(a, b, c)
  }

  /** The determinant with the columns (1, y, z) of three points. */
  function Det3(a: Point, b: Point, c: Point): real {
    (b.y * c.z - c.y * b.z) - (a.y * c.z - c.y * a.z) + (a.y * b.z - b.y * a.z)
  }

  /** The signed volume of a tetrahedron, the signed area of a triangle. */
  function Volume(dim: nat, v: seq<Point>): real
    requires dim == 2 || dim == 3
    requires |v| == dim + 1
  {
    if dim == 3 then Det4(v[0], v[1], v[2], v[3]) / 6.0 else Det3(v[0], v[1], v[2]) / 2.0
  }

  /** The volume with vertex i moved to p. */
  function SubVolume(dim: nat, v: seq<Point>, i: nat, p: Point): real
    requires dim == 2 || dim == 3
    requires |v| == dim + 1 && i <= dim
  {
    Volume(dim, v[i := p])
  }

  // ----- how large a volume is

  function Moved(p: Point, d: Point): Point {
    Point(p.x + d.x, p.y + d.y, p.z + d.z)
  }

  /** The simplex at p with legs a, b and c along the axes; a triangle has the
      legs along y and z. */
  function Corner(dim: nat, p: Point, a: real, b: real, c: real): (v: seq<Point>)
    requires dim == 2 || dim == 3
    ensures |v| == dim + 1
  {
    var y, z := Point(p.x, p.y + b, p.z), Point(p.x, p.y, p.z + c);
    if dim == 3 then [p, Point(p.x + a, p.y, p.z), y, z] else [p, y, z]
  }

  /** A sixth of the product of the legs, and a half of it for triangles. */
  lemma CornerVolume(p: Point, a: real, b: real, c: real)
    ensures Volume(3, Corner(3, p, a, b, c)) == a * b * c / 6.0
    ensures Volume(2, Corner(2, p, a, b, c)) == b * c / 2.0
  {
    var q, r, s := Point(p.x + a, p.y, p.z), Point(p.x, p.y + b, p.z), Point(p.x, p.y, p.z + c);
    assert Det4(p, q, r, s) == a * b * c;
    assert Det3(p, r, s) == b * c;
  }

  /** Moving the whole element does not change its volume. */
  lemma VolumeMoved(dim: nat, v: seq<Point>, d: Point)
    requires (dim == 2 || dim == 3) && |v| == dim + 1
    ensures Volume(dim, seq(|v|, i requires 0 <= i < |v| => Moved(v[i], d))) == Volume(dim, v)
  {
    if dim == 3 {
      Moved4(v[0], v[1], v[2], v[3], d);
    } else {
      assert Det3(Moved(v[0], d), Moved(v[1], d), Moved(v[2], d)) == Det3(v[0], v[1], v[2]);
    }
    hide Det4, Det3;
  }

  lemma Moved4(a: Point, b: Point, c: Point, e: Point, d: Point)
    ensures Det4(Moved(a, d), Moved(b, d), Moved(c, d), Moved(e, d)) == Det4(a, b, c, e)
  {}

  // ----- affine functions

  /** A product that is taken apart only where its value matters. */
  function Mul(a: real, b: real): real {
    a * b
  }

  function Affine(k: Point, b: real, p: Point): real {
    Mul(k.x, p.x) + Mul(k.y, p.y) + Mul(k.z, p.z) + b
  }

  lemma Gather(k: real, s: real, t: real)
    ensures Mul(k, s + t) == Mul(k, s) + Mul(k, t)
  {}

  lemma AffineTerm(w: real, p: Point, k: Point, b: real)
    ensures Mul(w, Affine(k, b, p)) == Mul(k.x, Mul(w, p.x)) + Mul(k.y, Mul(w, p.y)) + Mul(k.z, Mul(w, p.z)) + Mul(b, w)
  {}

  lemma Gather3(k: real, s0: real, s1: real, s2: real)
    ensures Mul(k, s0 + s1 + s2) == Mul(k, s0) + Mul(k, s1) + Mul(k, s2)
  {}

  lemma Mean3(w0: real, w1: real, w2: real, p: Point, q: Point, r: Point, k: Point, b: real)
    ensures Mul(w0, Affine(k, b, p)) + Mul(w1, Affine(k, b, q)) + Mul(w2, Affine(k, b, r))
         == Affine(k, Mul(b, w0 + w1 + w2),
                   Point(Mul(w0, p.x) + Mul(w1, q.x) + Mul(w2, r.x), Mul(w0, p.y) + Mul(w1, q.y) + Mul(w2, r.y),
                                                  Mul(w0, p.z) + Mul(w1, q.z) + Mul(w2, r.z)))
  {
    AffineTerm(w0, p, k, b);
    AffineTerm(w1, q, k, b);
    AffineTerm(w2, r, k, b);
    hide Mul;
    Gather3(k.x, Mul(w0, p.x), Mul(w1, q.x), Mul(w2, r.x));
    Gather3(k.y, Mul(w0, p.y), Mul(w1, q.y), Mul(w2, r.y));
    Gather3(k.z, Mul(w0, p.z), Mul(w1, q.z), Mul(w2, r.z));
    Gather3(b, w0, w1, w2);
  }

  lemma Mean4(w0: real, w1: real, w2: real, w3: real, p: Point, q: Point, r: Point, s: Point, k: Point, b: real)
    ensures Mul(w0, Affine(k, b, p)) + Mul(w1, Affine(k, b, q)) + Mul(w2, Affine(k, b, r)) + Mul(w3, Affine(k, b, s))
         == Affine(k, Mul(b, w0 + w1 + w2 + w3),
                   Point(Mul(w0, p.x) + Mul(w1, q.x) + Mul(w2, r.x) + Mul(w3, s.x),
                         Mul(w0, p.y) + Mul(w1, q.y) + Mul(w2, r.y) + Mul(w3, s.y),
                         Mul(w0, p.z) + Mul(w1, q.z) + Mul(w2, r.z) + Mul(w3, s.z)))
  {
    Mean3(w0, w1, w2, p, q, r, k, b);
    AffineTerm(w3, s, k, b);
    hide Mul;
    Gather(k.x, Mul(w0, p.x) + Mul(w1, q.x) + Mul(w2, r.x), Mul(w3, s.x));
    Gather(k.y, Mul(w0, p.y) + Mul(w1, q.y) + Mul(w2, r.y), Mul(w3, s.y));
    Gather(k.z, Mul(w0, p.z) + Mul(w1, q.z) + Mul(w2, r.z), Mul(w3, s.z));
    Gather(b, w0 + w1 + w2, w3);
  }

  // ----- the sub-volumes

  /** A volume is an affine function of its first vertex. */
  function Normal(b: Point, c: Point, d: Point): Point {
    Point(-(c.y * d.z - d.y * c.z) + (b.y * d.z - d.y * b.z) - (b.y * c.z - c.y * b.z),
          (c.x * d.z - d.x * c.z) - (b.x * d.z - d.x * b.z) + (b.x * c.z - c.x * b.z),
          -(c.x * d.y - d.x * c.y) + (b.x * d.y - d.x * b.y) - (b.x * c.y - c.x * b.y))
  }

  lemma Affine4(p: Point, b: Point, c: Point, d: Point)
    ensures Det4(p, b, c, d) == Affine(Normal(b, c, d), Det(b, c, d), p)
  {}

  lemma Repeated4(b: Point, c: Point, d: Point)
    ensures Det4(b, b, c, d) == 0.0 && Det4(c, b, c, d) == 0.0 && Det4(d, b, c, d) == 0.0
  {}

  lemma Affine3(p: Point, b: Point, c: Point)
    ensures Det3(p, b, c) == Affine(Point(0.0, b.z - c.z, c.y - b.y), b.y * c.z - c.y * b.z, p)
  {}

  lemma Repeated3(b: Point, c: Point)
    ensures Det3(b, b, c) == 0.0 && Det3(c, b, c) == 0.0
  {}

  lemma Unit(a: real)
    ensures Mul(a, 1.0) == a && Mul(a, 0.0) == 0.0
  {}

  /** Weights whose sum is one and whose weighted mean of the vertices is p are
      the parts that the sub-volumes have in the volume. */
  lemma Weights4(a: Point, b: Point, c: Point, d: Point, p: Point, wa: real, wb: real, wc: real, wd: real)
    requires wa + wb + wc + wd == 1.0
    requires p.x == Mul(wa, a.x) + Mul(wb, b.x) + Mul(wc, c.x) + Mul(wd, d.x)
    requires p.y == Mul(wa, a.y) + Mul(wb, b.y) + Mul(wc, c.y) + Mul(wd, d.y)
    requires p.z == Mul(wa, a.z) + Mul(wb, b.z) + Mul(wc, c.z) + Mul(wd, d.z)
    ensures Det4(p, b, c, d) == Mul(wa, Det4(a, b, c, d))
  {
    hide *;
    var k, e := Normal(b, c, d), Det(b, c, d);
    Affine4(p, b, c, d);
    Affine4(a, b, c, d);
    Affine4(b, b, c, d);
    Affine4(c, b, c, d);
    Affine4(d, b, c, d);
    Repeated4(b, c, d);
    Mean4(wa, wb, wc, wd, a, b, c, d, k, e);
    Unit(e);
    Unit(wb);
    Unit(wc);
    Unit(wd);
    assert p == Point(p.x, p.y, p.z);
  }

  lemma Weights3(a: Point, b: Point, c: Point, p: Point, wa: real, wb: real, wc: real)
    requires wa + wb + wc == 1.0
    requires p.y == Mul(wa, a.y) + Mul(wb, b.y) + Mul(wc, c.y)
    requires p.z == Mul(wa, a.z) + Mul(wb, b.z) + Mul(wc, c.z)
    ensures Det3(p, b, c) == Mul(wa, Det3(a, b, c))
  {
    var q := p.(x := Mul(wa, a.x) + Mul(wb, b.x) + Mul(wc, c.x));
    assert Det3(q, b, c) == Det3(p, b, c);
    hide *;
    var k, e := Point(0.0, b.z - c.z, c.y - b.y), b.y * c.z - c.y * b.z;
    Affine3(q, b, c);
    Affine3(a, b, c);
    Affine3(b, b, c);
    Affine3(c, b, c);
    Repeated3(b, c);
    Mean3(wa, wb, wc, a, b, c, k, e);
    Unit(e);
    Unit(wb);
    Unit(wc);
    assert q == Point(q.x, q.y, q.z);
  }

  // The sub-volumes reproduce p: in coordinates relative to p, a determinant with
  // a repeated row vanishes.

  /** The determinants expanded along a row t, with the minors of the other two rows. */
  lemma RepeatedRow(ta: real, tb: real, tc: real, td: real, ab: real, ac: real, ad: real, bc: real, bd: real, cd: real,
                    bcd: real, acd: real, abd: real, abc: real)
    requires bcd == tb * cd - tc * bd + td * bc && acd == ta * cd - tc * ad + td * ac
    requires abd == ta * bd - tb * ad + td * ab && abc == ta * bc - tb * ac + tc * ab
    ensures Mul(bcd, ta) - Mul(acd, tb) + Mul(abd, tc) - Mul(abc, td) == 0.0
  {}

  lemma Vanishes(a: Point, b: Point, c: Point, d: Point, k: nat)
    requires k < 3
    ensures Mul(Det(b, c, d), Coord(a, k)) - Mul(Det(a, c, d), Coord(b, k))
            + Mul(Det(a, b, d), Coord(c, k)) - Mul(Det(a, b, c), Coord(d, k)) == 0.0
  {
    ByRow(b, c, d, k);
    ByRow(a, c, d, k);
    ByRow(a, b, d, k);
    ByRow(a, b, c, k);
    hide *;
    RepeatedRow(Coord(a, k), Coord(b, k), Coord(c, k), Coord(d, k), Pair(a, b, k), Pair(a, c, k), Pair(a, d, k),
                Pair(b, c, k), Pair(b, d, k), Pair(c, d, k),
                Det(b, c, d), Det(a, c, d), Det(a, b, d), Det(a, b, c));
  }

  function Coord(p: Point, c: nat): real
    requires c < 3
  {
    if c == 0 then p.x else if c == 1 then p.y else p.z
  }

  /** The minor of p and q that leaves row k out, with the sign of the row. */
  function Pair(p: Point, q: Point, k: nat): real
    requires k < 3
  {
    if k == 0 then p.y * q.z - q.y * p.z else if k == 1 then -(p.x * q.z - q.x * p.z) else p.x * q.y - q.x * p.y
  }

  lemma ByRow(p: Point, q: Point, r: Point, k: nat)
    requires k < 3
    ensures Det(p, q, r) == Coord(p, k) * Pair(q, r, k) - Coord(q, k) * Pair(p, r, k) + Coord(r, k) * Pair(p, q, k)
  {}

  function Minus(a: Point, p: Point): Point {
    Point(a.x - p.x, a.y - p.y, a.z - p.z)
  }

  lemma SubRelative(p: Point, b: Point, c: Point, d: Point)
    ensures Det4(p, b, c, d) == Det(Minus(b, p), Minus(c, p), Minus(d, p))
  {}

  lemma MinusCoord(a: Point, p: Point, k: nat)
    requires k < 3
    ensures Coord(Minus(a, p), k) == Coord(a, k) - Coord(p, k)
  {}

  /** The four sub-volumes reproduce the point. */
  lemma Cramer4(a: Point, b: Point, c: Point, d: Point, p: Point, k: nat)
    requires k < 3
    ensures Mul(Det4(p, b, c, d), Coord(a, k)) + Mul(Det4(a, p, c, d), Coord(b, k)) + Mul(Det4(a, b, p, d), Coord(c, k))
          + Mul(Det4(a, b, c, p), Coord(d, k)) == Mul(Det4(a, b, c, d), Coord(p, k))
  {
    hide *;
    SubRelative(p, b, c, d);
    SubRelative(p, a, c, d);
    SubRelative(p, a, b, d);
    SubRelative(p, a, b, c);
    Alternates4(p, a, c, d);
    Alternates4(p, a, b, d);
    Alternates4(a, p, b, d);
    Alternates4(p, a, b, c);
    Alternates4(a, p, b, c);
    Alternates4(a, b, p, c);
    MinusCoord(a, p, k);
    MinusCoord(b, p, k);
    MinusCoord(c, p, k);
    MinusCoord(d, p, k);
    Vanishes(Minus(a, p), Minus(b, p), Minus(c, p), Minus(d, p), k);
    Sum4(a, b, c, d, p);
    Shifted(Det4(p, b, c, d), Det(Minus(a, p), Minus(c, p), Minus(d, p)), Det4(a, b, p, d),
            Det(Minus(a, p), Minus(b, p), Minus(c, p)),
            Coord(a, k), Coord(b, k), Coord(c, k), Coord(d, k), Coord(p, k));
  }

  lemma Shifted(sa: real, sb: real, sc: real, sd: real, a: real, b: real, c: real, d: real, p: real)
    requires Mul(sa, a - p) - Mul(sb, b - p) + Mul(sc, c - p) - Mul(sd, d - p) == 0.0
    ensures Mul(sa, a) + Mul(-sb, b) + Mul(sc, c) + Mul(-sd, d) == Mul(sa - sb + sc - sd, p)
  {}

  lemma Sum4(a: Point, b: Point, c: Point, d: Point, p: Point)
    ensures Det4(p, b, c, d) + Det4(a, p, c, d) + Det4(a, b, p, d) + Det4(a, b, c, p) == Det4(a, b, c, d)
  {}

  lemma Sum3(a: Point, b: Point, c: Point, p: Point)
    ensures Det3(p, b, c) + Det3(a, p, c) + Det3(a, b, p) == Det3(a, b, c)
  {}

  lemma Cramer3(a: Point, b: Point, c: Point, p: Point, k: nat)
    requires 1 <= k < 3
    ensures Mul(Det3(p, b, c), Coord(a, k)) + Mul(Det3(a, p, c), Coord(b, k)) + Mul(Det3(a, b, p), Coord(c, k))
         == Mul(Det3(a, b, c), Coord(p, k))
  {}

  /** Swapping two columns changes the sign. */
  lemma Alternates4(a: Point, b: Point, c: Point, d: Point)
    ensures Det4(b, a, c, d) == -Det4(a, b, c, d) && Det4(c, b, a, d) == -Det4(a, b, c, d)
    ensures Det4(d, b, c, a) == -Det4(a, b, c, d)
    ensures Det4(a, c, b, d) == -Det4(a, b, c, d) && Det4(a, d, c, b) == -Det4(a, b, c, d)
    ensures Det4(a, b, d, c) == -Det4(a, b, c, d)
  {}

  lemma Alternates3(a: Point, b: Point, c: Point)
    ensures Det3(b, a, c) == -Det3(a, b, c) && Det3(c, b, a) == -Det3(a, b, c) && Det3(a, c, b) == -Det3(a, b, c)
  {}

  // ----- moving one vertex

  /** The point at the part s of the way from q to p. */
  function Along(q: Point, p: Point, s: real): Point {
    Point(q.x + Mul(s, p.x - q.x), q.y + Mul(s, p.y - q.y), q.z + Mul(s, p.z - q.z))
  }

  lemma AffineAlong(k: Point, b: real, q: Point, p: Point, s: real)
    requires Affine(k, b, q) == 0.0
    ensures Affine(k, b, Along(q, p, s)) == Mul(s, Affine(k, b, p))
  {}

  lemma First4(a: Point, b: Point, c: Point, d: Point, e: Point, s: real)
    requires e == b || e == c || e == d
    ensures Det4(Along(e, a, s), b, c, d) == Mul(s, Det4(a, b, c, d))
  {
    hide *;
    Affine4(a, b, c, d);
    Affine4(e, b, c, d);
    Affine4(Along(e, a, s), b, c, d);
    Repeated4(b, c, d);
    AffineAlong(Normal(b, c, d), Det(b, c, d), e, a, s);
  }

  lemma First3(a: Point, b: Point, c: Point, e: Point, s: real)
    requires e == b || e == c
    ensures Det3(Along(e, a, s), b, c) == Mul(s, Det3(a, b, c))
  {
    hide *;
    Affine3(a, b, c);
    Affine3(e, b, c);
    Affine3(Along(e, a, s), b, c);
    Repeated3(b, c);
    AffineAlong(Point(0.0, b.z - c.z, c.y - b.y), b.y * c.z - c.y * b.z, e, a, s);
  }

  lemma Any4(v: seq<Point>, i: nat, j: nat, s: real)
    requires |v| == 4 && i < 4 && j < 4 && i != j
    ensures var u := v[i := Along(v[j], v[i], s)];
      Det4(u[0], u[1], u[2], u[3]) == Mul(s, Det4(v[0], v[1], v[2], v[3]))
  {
    hide Det4, Along;
    var q := Along(v[j], v[i], s);
    var u := v[i := q];
    Alternates4(v[0], v[1], v[2], v[3]);
    Alternates4(u[0], u[1], u[2], u[3]);
    match i
    case 0 => First4(v[0], v[1], v[2], v[3], v[j], s);
    case 1 => First4(v[1], v[0], v[2], v[3], v[j], s);
    case 2 => First4(v[2], v[1], v[0], v[3], v[j], s);
    case _ => First4(v[3], v[1], v[2], v[0], v[j], s);
  }

  lemma Any3(v: seq<Point>, i: nat, j: nat, s: real)
    requires |v| == 3 && i < 3 && j < 3 && i != j
    ensures var u := v[i := Along(v[j], v[i], s)]; Det3(u[0], u[1], u[2]) == Mul(s, Det3(v[0], v[1], v[2]))
  {
    hide Det3, Along;
    var q := Along(v[j], v[i], s);
    var u := v[i := q];
    Alternates3(v[0], v[1], v[2]);
    Alternates3(u[0], u[1], u[2]);
    match i
    case 0 => First3(v[0], v[1], v[2], v[j], s);
    case 1 => First3(v[1], v[0], v[2], v[j], s);
    case _ => First3(v[2], v[1], v[0], v[j], s);
  }

  /** Moving a vertex along the edge to another one scales the volume as the edge. */
  lemma VolumeStretched(dim: nat, v: seq<Point>, i: nat, j: nat, s: real)
    requires (dim == 2 || dim == 3) && |v| == dim + 1 && i < |v| && j < |v| && i != j
    ensures Volume(dim, v[i := Along(v[j], v[i], s)]) == s * Volume(dim, v)
  {
    hide Det4, Det3, Along;
    if dim == 3 {
      Any4(v, i, j, s);
    } else {
      Any3(v, i, j, s);
    }
  }

  // ----- weighted sums

  function Coords(v: seq<Point>, c: nat): (s: seq<real>)
    requires c < 3
    ensures |s| == |v|
  {
    seq(|v|, i requires 0 <= i < |v| => Coord(v[i], c))
  }

  function Total(w: seq<real>): real {
    if w == [] then 0.0 else Total(w[..|w| - 1]) + w[|w| - 1]
  }

  function Products(w: seq<real>, f: seq<real>): (s: seq<real>)
    requires |w| == |f|
    ensures |s| == |w|
  {
    seq(|w|, i requires 0 <= i < |w| => Mul(w[i], f[i]))
  }

  function Dot(w: seq<real>, f: seq<real>): real
    requires |w| == |f|
  {
    Total(Products(w, f))
  }

  lemma TotalStep(s: seq<real>, i: nat)
    requires i < |s|
    ensures Total(s[..i + 1]) == Total(s[..i]) + s[i]
  {
    assert s[..i + 1][..i] == s[..i];
  }

  lemma TotalOut(s: seq<real>)
    ensures |s| == 3 ==> Total(s) == s[0] + s[1] + s[2]
    ensures |s| == 4 ==> Total(s) == s[0] + s[1] + s[2] + s[3]
  {
    assert Total(s[..0]) == 0.0 && s == s[..|s|];
    hide Total;
    if |s| >= 3 {
      TotalStep(s, 0);
      TotalStep(s, 1);
      TotalStep(s, 2);
    }
    if |s| >= 4 {
      TotalStep(s, 3);
    }
  }

  lemma DotOut(w: seq<real>, f: seq<real>)
    requires |w| == |f|
    ensures |w| == 3 ==>
      Dot(w, f) == Mul(w[0], f[0]) + Mul(w[1], f[1]) + Mul(w[2], f[2]) && Total(w) == w[0] + w[1] + w[2]
    ensures |w| == 4 ==> Dot(w, f) == Mul(w[0], f[0]) + Mul(w[1], f[1]) + Mul(w[2], f[2]) + Mul(w[3], f[3])
    ensures |w| == 4 ==> Total(w) == w[0] + w[1] + w[2] + w[3]
  {
    hide Total, Mul;
    TotalOut(w);
    TotalOut(Products(w, f));
  }

  lemma {:induction false} TotalMonotone(s: seq<real>, t: seq<real>)
    requires |s| == |t| && forall i :: 0 <= i < |s| ==> s[i] <= t[i]
    ensures Total(s) <= Total(t)
  {
    if s == [] {
    } else {
      TotalMonotone(s[..|s| - 1], t[..|t| - 1]);
    }
  }

  function Scaled(w: seq<real>, k: real): (s: seq<real>)
    ensures |s| == |w|
  {
    seq(|w|, i requires 0 <= i < |w| => Mul(k, w[i]))
  }

  lemma {:induction false} TotalScaled(w: seq<real>, k: real)
    ensures Total(Scaled(w, k)) == Mul(k, Total(w))
  {
    if w == [] {
      assert Mul(k, 0.0) == 0.0;
    } else {
      hide Mul;
      var n := |w| - 1;
      TotalScaled(w[..n], k);
      assert Scaled(w, k)[..n] == Scaled(w[..n], k);
      Gather(k, Total(w[..n]), w[n]);
    }
  }

  /** A weighted mean lies between the least and the greatest value. */
  lemma MeanBetween(w: seq<real>, f: seq<real>, lo: real, hi: real)
    requires |w| == |f| && Total(w) == 1.0 && forall i :: 0 <= i < |w| ==> w[i] >= 0.0 && lo <= f[i] <= hi
    ensures lo <= Dot(w, f) <= hi
  {
    TotalScaled(w, lo);
    TotalScaled(w, hi);
    assert Mul(lo, 1.0) == lo && Mul(hi, 1.0) == hi;
    hide Mul, Total;
    forall i | 0 <= i < |w| ensures Scaled(w, lo)[i] <= Products(w, f)[i] <= Scaled(w, hi)[i] {
      ScaledBetween(w[i], f[i], lo, hi);
    }
    TotalMonotone(Scaled(w, lo), Products(w, f));
    TotalMonotone(Products(w, f), Scaled(w, hi));
  }

  lemma ScaledBetween(w: real, f: real, lo: real, hi: real)
    requires w >= 0.0 && lo <= f <= hi
    ensures Mul(lo, w) <= Mul(w, f) <= Mul(hi, w)
  {
    assert w * (f - lo) >= 0.0 && w * (hi - f) >= 0.0;
  }

  /** The mean of affine values is the affine value of the mean. */
  lemma MeanAffine(w: seq<real>, f: seq<real>, v: seq<Point>, k: Point, b: real)
    requires |w| == |f| == |v| && (|w| == 3 || |w| == 4)
    requires forall i :: 0 <= i < |w| ==> f[i] == Affine(k, b, v[i])
    ensures Dot(w, f)
         == Affine(k, Mul(b, Total(w)), Point(Dot(w, Coords(v, 0)), Dot(w, Coords(v, 1)), Dot(w, Coords(v, 2))))
  {
    hide Total, Affine, Mul, Dot;
    DotOut(w, f);
    forall c: nat | c < 3
      ensures |w| == 3 ==>
        Dot(w, Coords(v, c)) == Mul(w[0], Coord(v[0], c)) + Mul(w[1], Coord(v[1], c)) + Mul(w[2], Coord(v[2], c))
      ensures |w| == 4 ==>
      Dot(w, Coords(v, c))
      == Mul(w[0], Coord(v[0], c)) + Mul(w[1], Coord(v[1], c)) + Mul(w[2], Coord(v[2], c)) + Mul(w[3], Coord(v[3], c))
      ensures |w| == 3 ==> Total(w) == w[0] + w[1] + w[2]
      ensures |w| == 4 ==> Total(w) == w[0] + w[1] + w[2] + w[3]
    {
      DotOut(w, Coords(v, c));
    }
    hide Coords;
    if |w| == 3 {
      assert f == [Affine(k, b, v[0]), Affine(k, b, v[1]), Affine(k, b, v[2])];
      Mean3(w[0], w[1], w[2], v[0], v[1], v[2], k, b);
    } else {
      assert f == [Affine(k, b, v[0]), Affine(k, b, v[1]), Affine(k, b, v[2]), Affine(k, b, v[3])];
      Mean4(w[0], w[1], w[2], w[3], v[0], v[1], v[2], v[3], k, b);
    }
  }
}
