/** Barycentric coordinates: the sub-volumes of a point give its weights, and the
    point is in the closed simplex exactly if they have the sign of the volume. */
module Barycentric {
  import opened Geometry
  import opened Simplex

  /** A two-dimensional element lives in the coordinates y and z. */
  predicate Relevant(dim: nat, c: nat) {
    c < 3 && (dim == 3 || c > 0)
  }

  /** Weights with the sum one whose weighted mean of the vertices is p. */
  ghost predicate Represents(dim: nat, v: seq<Point>, p: Point, w: seq<real>) {
    |w| == |v| && Total(w) == 1.0 && forall c: nat :: Relevant(dim, c) ==> Dot(w, Coords(v, c)) == Coord(p, c)
  }

  ghost predicate NonNegative(w: seq<real>) {
    forall i :: 0 <= i < |w| ==> w[i] >= 0.0
  }

  /** p is a convex combination of the vertices. */
  ghost predicate InSimplex(dim: nat, v: seq<Point>, p: Point) {
    exists w :: Represents(dim, v, p, w) && NonNegative(w)
  }

  predicate Element(dim: nat, v: seq<Point>) {
    (dim == 2 || dim == 3) && |v| == dim + 1
  }

  function Weights(dim: nat, v: seq<Point>, p: Point): (w: seq<real>)
    requires Element(dim, v) && Volume(dim, v) != 0.0
    ensures |w| == dim + 1
  {
    seq(dim + 1, i requires 0 <= i < dim + 1 => SubVolume(dim, v, i, p) / Volume(dim, v))
  }

  // ----- the weights represent the point

  lemma Quotient(x: real, y: real)
    requires y != 0.0
    ensures Mul(x / y, y) == x
  {}

  lemma Cancel(d: real, s: real, p: real)
    requires d != 0.0 && Mul(d, s) == Mul(d, p)
    ensures s == p
  {}

  /** Dividing an equation of sub-volumes by the volume. */
  lemma DivideOut(d: real, d0: real, d1: real, d2: real, d3: real, x0: real, x1: real, x2: real, x3: real, p: real,
                  k: real)
    requires d != 0.0 && k != 0.0
    requires Mul(d0, x0) + Mul(d1, x1) + Mul(d2, x2) + Mul(d3, x3) == Mul(d, p)
    ensures Mul(d0 / k / (d / k), x0) + Mul(d1 / k / (d / k), x1) + Mul(d2 / k / (d / k), x2)
            + Mul(d3 / k / (d / k), x3) == p
  {
    SameRatio(d0, d, k, x0);
    SameRatio(d1, d, k, x1);
    SameRatio(d2, d, k, x2);
    SameRatio(d3, d, k, x3);
    hide Mul;
    var w0, w1, w2, w3 := Mul(d0 / k / (d / k), x0), Mul(d1 / k / (d / k), x1), Mul(d2 / k / (d / k), x2),
      Mul(d3 / k / (d / k), x3);
    Gather(d, w0, w1);
    Gather(d, w0 + w1, w2);
    Gather(d, w0 + w1 + w2, w3);
    Cancel(d, w0 + w1 + w2 + w3, p);
  }

  lemma SameRatio(x: real, d: real, k: real, c: real)
    requires d != 0.0 && k != 0.0
    ensures d / k != 0.0 && Mul(d, Mul(x / k / (d / k), c)) == Mul(x, c)
  {
    var q := x / k / (d / k);
    Quotient(d, k);
    Quotient(x, k);
    assert d / k != 0.0;
    Quotient(x / k, d / k);
    Chain4(q, d / k, k, d, x, c);
  }

  lemma Chain4(q: real, e: real, k: real, d: real, x: real, c: real)
    requires Mul(e, k) == d && Mul(Mul(q, e), k) == x
    ensures Mul(d, Mul(q, c)) == Mul(x, c)
  {}

  lemma WeightsRepresent(dim: nat, v: seq<Point>, p: Point)
    requires Element(dim, v) && Volume(dim, v) != 0.0
    ensures Represents(dim, v, p, Weights(dim, v, p))
  {
    if dim == 3 {
      Represent4(v, p);
    } else {
      Represent3(v, p);
    }
  }

  lemma Represent4(v: seq<Point>, p: Point)
    requires |v| == 4 && Volume(3, v) != 0.0
    ensures Represents(3, v, p, Weights(3, v, p))
  {
    var w := Weights(3, v, p);
    var a, b, c, d := v[0], v[1], v[2], v[3];
    var D, D0, D1, D2, D3 := Det4(a, b, c, d), Det4(p, b, c, d), Det4(a, p, c, d), Det4(a, b, p, d), Det4(a, b, c, p);
    assert w[0] == D0 / 6.0 / (D / 6.0) && w[1] == D1 / 6.0 / (D / 6.0) && w[2] == D2 / 6.0 / (D / 6.0);
    assert w[3] == D3 / 6.0 / (D / 6.0);
    assert D != 0.0;
    Sum4(a, b, c, d, p);
    hide Det4, Weights, Volume, Mul, Total, Dot;
    DotOut(w, w);
    Unit(D);
    Unit(D0);
    Unit(D1);
    Unit(D2);
    Unit(D3);
    DivideOut(D, D0, D1, D2, D3, 1.0, 1.0, 1.0, 1.0, 1.0, 6.0);
    Unit(w[0]);
    Unit(w[1]);
    Unit(w[2]);
    Unit(w[3]);
    forall k: nat | Relevant(3, k) ensures Dot(w, Coords(v, k)) == Coord(p, k) {
      DotOut(w, Coords(v, k));
      Cramer4(a, b, c, d, p, k);
      DivideOut(D, D0, D1, D2, D3, Coord(a, k), Coord(b, k), Coord(c, k), Coord(d, k), Coord(p, k), 6.0);
    }
  }

  lemma Represent3(v: seq<Point>, p: Point)
    requires |v| == 3 && Volume(2, v) != 0.0
    ensures Represents(2, v, p, Weights(2, v, p))
  {
    var w := Weights(2, v, p);
    var a, b, c := v[0], v[1], v[2];
    var D, D0, D1, D2 := Det3(a, b, c), Det3(p, b, c), Det3(a, p, c), Det3(a, b, p);
    assert w[0] == D0 / 2.0 / (D / 2.0) && w[1] == D1 / 2.0 / (D / 2.0) && w[2] == D2 / 2.0 / (D / 2.0);
    assert D != 0.0;
    Sum3(a, b, c, p);
    hide Det3, Weights, Volume, Mul, Total, Dot;
    DotOut(w, w);
    Unit(D);
    Unit(D0);
    Unit(D1);
    Unit(D2);
    Unit(0.0);
    Unit(0.0 / 2.0 / (D / 2.0));
    DivideOut(D, D0, D1, D2, 0.0, 1.0, 1.0, 1.0, 0.0, 1.0, 2.0);
    Unit(w[0]);
    Unit(w[1]);
    Unit(w[2]);
    forall k: nat | Relevant(2, k) ensures Dot(w, Coords(v, k)) == Coord(p, k) {
      DotOut(w, Coords(v, k));
      Cramer3(a, b, c, p, k);
      DivideOut(D, D0, D1, D2, 0.0, Coord(a, k), Coord(b, k), Coord(c, k), 0.0, Coord(p, k), 2.0);
    }
  }

  // ----- and they are the only ones

  lemma WeightsUnique(dim: nat, v: seq<Point>, p: Point, w: seq<real>, i: nat)
    requires Element(dim, v) && i <= dim && Represents(dim, v, p, w)
    ensures SubVolume(dim, v, i, p) == Mul(w[i], Volume(dim, v))
  {
    if dim == 3 {
      Unique4(v, p, w, i);
    } else {
      Unique3(v, p, w, i);
    }
  }

  lemma Unique4(v: seq<Point>, p: Point, w: seq<real>, i: nat)
    requires |v| == 4 && i <= 3 && Represents(3, v, p, w)
    ensures SubVolume(3, v, i, p) == Mul(w[i], Volume(3, v))
  {
    var a, b, c, d := v[0], v[1], v[2], v[3];
    forall k: nat | k < 3
      ensures Coord(p, k)
           == Mul(w[0], Coord(a, k)) + Mul(w[1], Coord(b, k)) + Mul(w[2], Coord(c, k)) + Mul(w[3], Coord(d, k))
      ensures w[0] + w[1] + w[2] + w[3] == 1.0
    {
      assert Relevant(3, k);
      hide Mul, Dot, Total;
      DotOut(w, Coords(v, k));
    }
    assert Volume(3, v) == Det4(a, b, c, d) / 6.0;
    assert SubVolume(3, v, i, p) == (if i == 0 then Det4(p, b, c, d) else if i == 1 then Det4(a, p, c, d)
                                     else if i == 2 then Det4(a, b, p, d) else Det4(a, b, c, p)) / 6.0;
    assert Coord(p, 0) == p.x && Coord(p, 1) == p.y && Coord(p, 2) == p.z;
    assert forall q: Point :: q in v ==> Coord(q, 0) == q.x && Coord(q, 1) == q.y && Coord(q, 2) == q.z;
    hide Det4, Mul, Volume, SubVolume, Coord, Represents;
    Alternates4(a, b, c, d);
    if i == 0 {
      Weights4(a, b, c, d, p, w[0], w[1], w[2], w[3]);
    } else if i == 1 {
      Weights4(b, a, c, d, p, w[1], w[0], w[2], w[3]);
      Alternates4(a, p, c, d);
    } else if i == 2 {
      Weights4(c, b, a, d, p, w[2], w[1], w[0], w[3]);
      Alternates4(a, b, p, d);
    } else {
      Weights4(d, b, c, a, p, w[3], w[1], w[2], w[0]);
      Alternates4(a, b, c, p);
    }
    Sixth(w[i], Det4(a, b, c, d), 6.0);
  }

  lemma Sixth(w: real, d: real, k: real)
    requires k != 0.0
    ensures Mul(w, d / k) == Mul(w, d) / k && Mul(w, -d) == -Mul(w, d)
  {
    Quotient(d, k);
    Quotient(Mul(w, d), k);
    Cancel(k, Mul(w, d / k), Mul(w, d) / k);
  }

  lemma Unique3(v: seq<Point>, p: Point, w: seq<real>, i: nat)
    requires |v| == 3 && i <= 2 && Represents(2, v, p, w)
    ensures SubVolume(2, v, i, p) == Mul(w[i], Volume(2, v))
  {
    var a, b, c := v[0], v[1], v[2];
    forall k: nat | 1 <= k < 3
      ensures Coord(p, k) == Mul(w[0], Coord(a, k)) + Mul(w[1], Coord(b, k)) + Mul(w[2], Coord(c, k))
      ensures w[0] + w[1] + w[2] == 1.0
    {
      assert Relevant(2, k);
      hide Mul, Dot, Total;
      DotOut(w, Coords(v, k));
    }
    assert Volume(2, v) == Det3(a, b, c) / 2.0;
    assert SubVolume(2, v, i, p)
        == (if i == 0 then Det3(p, b, c) else if i == 1 then Det3(a, p, c) else Det3(a, b, p)) / 2.0;
    assert Coord(p, 1) == p.y && Coord(p, 2) == p.z;
    assert forall q: Point :: q in v ==> Coord(q, 1) == q.y && Coord(q, 2) == q.z;
    hide Det3, Mul, Volume, SubVolume, Coord, Represents;
    Alternates3(a, b, c);
    if i == 0 {
      Weights3(a, b, c, p, w[0], w[1], w[2]);
    } else if i == 1 {
      Weights3(b, a, c, p, w[1], w[0], w[2]);
      Alternates3(a, p, c);
    } else {
      Weights3(c, b, a, p, w[2], w[1], w[0]);
      Alternates3(a, b, p);
    }
    Sixth(w[i], Det3(a, b, c), 2.0);
  }
}
