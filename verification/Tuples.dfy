/** Tuples of mesh points: which of them make a valid element, and which one the
    enumeration of the sorted neighbours comes to first. */
module Tuples {
  import opened Slots
  import opened Geometry
  import opened Barycentric
  import opened Simplex
  import opened MeshElements
  import opened Arrangements
  import opened Positions
  import Choices
  import Functors
  import Coverage
  import ForEach

  function At(points: seq<Point>, t: seq<nat>): (v: seq<Point>)
    requires Within(t, |points|)
    ensures |v| == |t|
  {
    seq(|t|, i requires 0 <= i < |t| => points[t[i]])
  }

  /** As many points as an element of this dimension has. */
  ghost predicate Shaped(points: seq<Point>, dim: nat, t: seq<nat>) {
    (dim == 2 || dim == 3) && |t| == dim + 1 && Within(t, |points|)
  }

  /** The points of the tuple make an element that has a volume and is valid for q. */
  ghost predicate Good(points: seq<Point>, cut: real, q: Point, dim: nat, t: seq<nat>) {
    Shaped(points, dim, t) && Passes(dim, At(points, t), cut, q) && Volume(dim, At(points, t)) != 0.0
  }

  /** The points of the tuple make a flat element that is valid for q all the same. */
  ghost predicate FlatPass(points: seq<Point>, cut: real, q: Point, dim: nat, t: seq<nat>) {
    Shaped(points, dim, t) && Passes(dim, At(points, t), cut, q) && Volume(dim, At(points, t)) == 0.0
  }

  /** A tuple is good if and only if it is large enough for the cut, has a volume,
      and its closed simplex holds q. */
  lemma GoodIff(points: seq<Point>, cut: real, q: Point, dim: nat, t: seq<nat>)
    requires Shaped(points, dim, t)
    ensures Good(points, cut, q, dim, t) <==>
      && (cut > 0.0 ==> LargeEnough(Volume(dim, At(points, t)), cut))
      && Volume(dim, At(points, t)) != 0.0 && InSimplex(dim, At(points, t), q)
  {
    hide Volume, InSimplex, Passes, LargeEnough;
    PassesIff(dim, At(points, t), cut, q);
  }

  /** A tuple passes with a flat element if and only if there is no cut and its
      element is flat, wherever q is. */
  lemma FlatPassIff(points: seq<Point>, cut: real, q: Point, dim: nat, t: seq<nat>)
    requires Shaped(points, dim, t)
    ensures FlatPass(points, cut, q, dim, t) <==> cut <= 0.0 && Volume(dim, At(points, t)) == 0.0
  {
    hide Volume, InSimplex, Passes;
    PassesIff(dim, At(points, t), cut, q);
    if cut > 0.0 && FlatPass(points, cut, q, dim, t) {
      NotLarge(cut);
    }
  }

  lemma NotLarge(cut: real)
    ensures !LargeEnough(0.0, cut)
  {}

  /** Three points on a line, which pass everywhere. */
  lemma FlatInput(q: Point) returns (points: seq<Point>)
    ensures points == [Point(0.0, 0.0, 0.0), Point(0.0, 1.0, 0.0), Point(0.0, 2.0, 0.0)]
    ensures FlatPass(points, 0.0, q, 2, [0, 1, 2])
  {
    points := [Point(0.0, 0.0, 0.0), Point(0.0, 1.0, 0.0), Point(0.0, 2.0, 0.0)];
    assert At(points, [0, 1, 2]) == points;
    FlatPassIff(points, 0.0, q, 2, [0, 1, 2]);
    hide FlatPass;
  }

  /** With a smaller cut, or none, the same tuples are good and more. */
  lemma GoodBelow(points: seq<Point>, cut: real, lower: real, q: Point, dim: nat, t: seq<nat>)
    requires Good(points, cut, q, dim, t) && (lower <= cut || lower <= 0.0)
    ensures Good(points, lower, q, dim, t)
  {
    hide Volume, SameSigns;
  }

  /** The value interpolated at q from the tuple. */
  ghost function ValueOf(points: seq<Point>, field: seq<Point>, cut: real, q: Point, dim: nat, t: seq<nat>): Point
    requires |points| == |field| && Good(points, cut, q, dim, t)
  {
    Observable(dim, At(points, t), At(field, t), q)
  }

  // ----- the order within a tuple does not matter

  /** The elements of two tuples are valid together, and interpolate the same. */
  ghost predicate SameElement(points: seq<Point>, field: seq<Point>, cut: real, q: Point, dim: nat, t: seq<nat>,
                              u: seq<nat>)
    requires |points| == |field| && (dim == 2 || dim == 3) && |t| == |u| == dim + 1
    requires Within(t, |points|) && Within(u, |points|)
  {
    && (Passes(dim, At(points, t), cut, q) <==> Passes(dim, At(points, u), cut, q))
    && (Volume(dim, At(points, t)) == 0.0 <==> Volume(dim, At(points, u)) == 0.0)
    && (Volume(dim, At(points, t)) != 0.0 ==>
          Observable(dim, At(points, t), At(field, t), q) == Observable(dim, At(points, u), At(field, u), q))
  }

  lemma SameSwapped(points: seq<Point>, field: seq<Point>, cut: real, q: Point, dim: nat, t: seq<nat>, i: nat, j: nat)
    requires |points| == |field| && (dim == 2 || dim == 3) && |t| == dim + 1 && Within(t, |points|) && i <= j < |t|
    ensures Within(Swapped(t, i, j), |points|) && SameElement(points, field, cut, q, dim, t, Swapped(t, i, j))
  {
    hide Passes, Volume, Observable;
    var u := Swapped(t, i, j);
    assert At(points, u) == Swapped(At(points, t), i, j) && At(field, u) == Swapped(At(field, t), i, j);
    if i < j {
      SwapIndependent(dim, At(points, t), At(field, t), cut, q, i, j);
      SwapIndependent(dim, At(points, u), At(field, u), cut, q, i, j);
      SwapTwice(At(points, t), i, j);
    } else {
      assert u == t;
    }
  }

  /** Tuples of the same points make the same element. */
  lemma {:induction false} SamePermuted(points: seq<Point>, field: seq<Point>, cut: real, q: Point, dim: nat,
                                        t: seq<nat>, u: seq<nat>, n: nat)
    requires |points| == |field| && (dim == 2 || dim == 3) && |t| == |u| == dim + 1
    requires Within(t, |points|) && Within(u, |points|) && multiset(t) == multiset(u) && n <= |t| && t[..n] == u[..n]
    ensures SameElement(points, field, cut, q, dim, t, u)
    decreases |t| - n
  {
    hide Passes, Volume, Observable;
    if n == |t| {
      assert t == t[..n] && u == u[..n];
    } else {
      var j := FindRest(t, u, n);
      var s := Swapped(t, n, j);
      SwapKeeps(t, n, j);
      SameSwapped(points, field, cut, q, dim, t, n, j);
      assert s[..n + 1] == t[..n] + [t[j]];
      assert u[..n + 1] == u[..n] + [u[n]];
      SamePermuted(points, field, cut, q, dim, s, u, n + 1);
    }
  }

  /** Tuples of the same points are good together. */
  lemma GoodPermuted(points: seq<Point>, cut: real, q: Point, dim: nat, t: seq<nat>, u: seq<nat>)
    requires Within(t, |points|) && Within(u, |points|) && multiset(t) == multiset(u) && |t| == |u|
    ensures Good(points, cut, q, dim, t) <==> Good(points, cut, q, dim, u)
  {
    if (dim == 2 || dim == 3) && |t| == dim + 1 {
      SamePermuted(points, points, cut, q, dim, t, u, 0);
    }
    hide Passes;
  }

  /** The vertices of an element in any order, each with its value: the element is
      valid in all orders or in none, and the interpolated value is the same. */
  lemma OrderIndependent(dim: nat, v: seq<Point>, f: seq<Point>, cut: real, p: Point, t: seq<nat>)
    requires Element(dim, v) && |f| == |v| && multiset(t) == multiset(Iota(dim + 1))
    ensures |t| == dim + 1 && Within(t, |v|)
    ensures Passes(dim, At(v, t), cut, p) <==> Passes(dim, v, cut, p)
    ensures Volume(dim, At(v, t)) == 0.0 <==> Volume(dim, v) == 0.0
    ensures Volume(dim, v) != 0.0 ==> Observable(dim, At(v, t), At(f, t), p) == Observable(dim, v, f, p)
  {
    hide Passes, Volume, Observable;
    var u := Iota(dim + 1);
    assert |t| == |multiset(t)| == |multiset(u)| == |u|;
    WithinKept(u, t, |v|);
    assert At(v, u) == v && At(f, u) == f;
    SamePermuted(v, f, cut, p, dim, t, u, 0);
  }

  lemma SwapKeeps(t: seq<nat>, i: nat, j: nat)
    requires i <= j < |t|
    ensures multiset(Swapped(t, i, j)) == multiset(t)
  {}

  lemma SplitOff(t: seq<nat>, n: nat)
    requires n <= |t|
    ensures multiset(t[n..]) == multiset(t) - multiset(t[..n])
  {
    assert t == t[..n] + t[n..];
  }

  lemma FindRest(t: seq<nat>, u: seq<nat>, n: nat) returns (j: nat)
    requires multiset(t) == multiset(u) && n < |t| == |u| && t[..n] == u[..n]
    ensures n <= j < |t| && t[j] == u[n]
  {
    SplitOff(t, n);
    SplitOff(u, n);
    assert multiset(u[n..]) == multiset(t[n..]) && u[n..][0] in multiset(u[n..]);
    var k :| 0 <= k < |t[n..]| && t[n..][k] == u[n];
    j := n + k;
  }

  // ----- what for_each_combination shows of a list

  function Front(s: seq<nat>, k: nat, i: nat): (t: seq<nat>)
    requires k <= |s| && i < |Combos(s, k)|
    ensures |t| == k
  {
    Combos(s, k)[i][..k]
  }

  lemma {:induction false} UserSeesAll(n: nat, X: seq<seq<nat>>)
    requires AllSized(X, n)
    ensures Functors.VisitsAll(Functors.User, n, X) == X
  {
    if X == [] {
    } else {
      UserSeesAll(n, X[1..]);
    }
  }

  lemma PutWhole(s: seq<nat>, k: nat, c: seq<nat>)
    requires k <= |s| == |c|
    ensures Two(0, k, k, |s|).Put(s, c) == c && Two(0, k, k, |s|).Get(s) == s
  {}

  /** Combination i of the list is good. */
  ghost predicate GoodFront(points: seq<Point>, cut: real, q: Point, dim: nat, s: seq<nat>, i: nat)
    requires dim + 1 <= |s| && i < |Combos(s, dim + 1)|
  {
    Good(points, cut, q, dim, Front(s, dim + 1, i))
  }

  /** The callback sees the first k elements of each combination. */
  lemma SeenFronts(s: seq<nat>, k: nat)
    requires k <= |s|
    ensures |ForEach.Seen(Functors.User, s, 0, k, |s|)| == |Combos(s, k)|
    ensures forall i :: 0 <= i < |Combos(s, k)| ==> ForEach.Seen(Functors.User, s, 0, k, |s|)[i] == Front(s, k, i)
  {
    hide Combos, Functors.VisitsAll, Functors.Visits, Ranges.Put, Ranges.Get;
    var R := Two(0, k, k, |s|);
    Coverage.VisitsCombine(Functors.User, R, s);
    PutWhole(s, k, s);
    var cs := Combos(s, k);
    var X := Functors.PutAll(R, s, cs);
    forall i | 0 <= i < |cs| ensures X[i] == cs[i] {
      PutWhole(s, k, cs[i]);
    }
    UserSeesAll(|s|, X);
  }

  lemma PickFront(s: seq<nat>, p: seq<nat>, k: nat)
    requires Within(p, |s|) && k <= |p|
    ensures Pick(s, p)[..k] == Pick(s, p[..k])
  {}

  /** The tuple at the positions p of the list is good, and none at positions
      lexicographically before p is. */
  ghost predicate FirstGood(points: seq<Point>, cut: real, q: Point, dim: nat, s: seq<nat>, p: seq<nat>) {
    && |p| == dim + 1 && Increasing(p) && Within(p, |s|) && Good(points, cut, q, dim, Pick(s, p))
    && forall r ::
         |r| == dim + 1 && Increasing(r) && Within(r, |s|) && LexLess(r, p) ==> !Good(points, cut, q, dim, Pick(s, r))
  }

  lemma LexAsymmetric(a: seq<nat>, b: seq<nat>)
    requires LexLess(a, b)
    ensures !LexLess(b, a) && a != b
  {
    var p: nat :| p < |a| && p < |b| && a[..p] == b[..p] && a[p] < b[p];
    Alike(a, b, p);
    forall r: nat | r < |a| && r < |b| && b[..r] == a[..r] ensures !(b[r] < a[r]) {
      Alike(a, b, r);
    }
  }

  lemma Alike(a: seq<nat>, b: seq<nat>, n: nat)
    requires n <= |a| && n <= |b| && a[..n] == b[..n]
    ensures forall i :: 0 <= i < n ==> a[i] == b[i]
  {
    forall i | 0 <= i < n ensures a[i] == b[i] {
      assert a[..n][i] == b[..n][i];
    }
  }

  /** The first combination accepted is the lexicographically first good tuple. */
  lemma FirstAccepted(points: seq<Point>, cut: real, q: Point, dim: nat, s: seq<nat>, m: nat) returns (p: seq<nat>)
    requires dim + 1 <= |s| && m < |Combos(s, dim + 1)|
    requires GoodFront(points, cut, q, dim, s, m)
    requires forall i :: 0 <= i < m ==> !GoodFront(points, cut, q, dim, s, i)
    ensures FirstGood(points, cut, q, dim, s, p) && Pick(s, p) == Front(s, dim + 1, m)
  {
    hide Combos, Good;
    var k, u := dim + 1, Iota(|s|);
    CombinationOrder(s, k, m);
    var full := Combos(u, k)[m];
    p := full[..k];
    PickFront(s, full, k);
    forall r | |r| == k && Increasing(r) && Within(r, |s|) && LexLess(r, p)
      ensures !Good(points, cut, q, dim, Pick(s, r))
    {
      var i := CombinationShown(|s|, k, r);
      if i >= m {
        LexAsymmetric(r, p);
        assert false;
      }
      CombinationOrder(s, k, i);
      PickFront(s, Combos(u, k)[i], k);
      assert !GoodFront(points, cut, q, dim, s, i);
    }
  }

  /** The combination that comes last is the end of the list. */
  lemma LastFront(s: seq<nat>, k: nat)
    requires k <= |s|
    ensures |Combos(s, k)| > 0 && Front(s, k, |Combos(s, k)| - 1) == s[|s| - k..]
  {
    hide Combos, Increasing, LexLess;
    var n := |s|;
    var r := Topmost(n, k);
    var i := CombinationShown(n, k, r);
    Choices.CombosCount(s, k);
    Choices.CombosCount(Iota(n), k);
    var last := |Combos(s, k)| - 1;
    CombinationOrder(s, k, last);
    var full := Combos(Iota(n), k)[last];
    PickFront(s, full, k);
    if i < last {
      CombinationOrder(s, k, i);
      NothingAbove(n, k, full[..k]);
      assert false;
    }
    PickTop(s, k);
  }

  /** The k greatest positions below n. */
  function Topmost(n: nat, k: nat): (r: seq<nat>)
    requires k <= n
    ensures |r| == k && Within(r, n) && Increasing(r)
  {
    seq(k, i requires 0 <= i < k => n - k + i)
  }

  lemma PickTop(s: seq<nat>, k: nat)
    requires k <= |s|
    ensures Pick(s, Topmost(|s|, k)) == s[|s| - k..]
  {}

  lemma NothingAbove(n: nat, k: nat, p: seq<nat>)
    requires k <= n && |p| == k && Increasing(p) && Within(p, n)
    ensures !LexLess(Topmost(n, k), p)
  {
    forall i: nat | i < k ensures p[i] <= Topmost(n, k)[i] {
      RoomAbove(n, p, i);
    }
  }

  lemma {:induction false} RoomAbove(n: nat, p: seq<nat>, i: nat)
    requires Increasing(p) && Within(p, n) && i < |p|
    ensures p[i] + |p| - i <= n
    decreases |p| - i
  {
    if i + 1 == |p| {
    } else {
      RoomAbove(n, p, i + 1);
    }
  }

  /** Where no combination is good, no tuple of elements of the list is, in any order. */
  lemma NoneGood(points: seq<Point>, cut: real, q: Point, dim: nat, s: seq<nat>, t: seq<nat>)
    requires dim + 1 <= |s| && |t| == dim + 1 && Within(s, |points|) && Within(t, |points|)
    requires multiset(t) <= multiset(s)
    requires forall i :: 0 <= i < |Combos(s, dim + 1)| ==> !GoodFront(points, cut, q, dim, s, i)
    ensures !Good(points, cut, q, dim, t)
  {
    hide Combos, Good;
    var i := Choices.CombosCover(s, dim + 1, multiset(t));
    var u := Front(s, dim + 1, i);
    assert !GoodFront(points, cut, q, dim, s, i);
    WithinKept(t, u, |points|);
    GoodPermuted(points, cut, q, dim, t, u);
  }
}
