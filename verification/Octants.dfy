/** Octants and the linked lists of point indices behind them. */
module Octants {
  import opened Slots
  import opened Geometry

  datatype Params = Params(bucketSize: nat, minExtent: real)

  /** An octant, or the null pointer. */
  datatype Octant =
    | Null
    | Octant(cube: Cube, start: nat, end: nat, size: nat, isLeaf: bool, child: seq<Octant>)

  predicate Splits(params: Params, size: nat, extent: real) {
    size > params.bucketSize && extent > 2.0 * params.minExtent
  }

  // ----- lists of indices

  ghost predicate AllIn(o: Cube, pts: seq<Point>, list: seq<nat>)
    requires Within(list, |pts|)
  {
    forall k :: 0 <= k < |list| ==> o.Has(pts[list[k]])
  }

  /** start, end and size describe the list. */
  ghost predicate Described(start: nat, end: nat, size: nat, list: seq<nat>) {
    size == |list| && (size > 0 ==> start == list[0] && end == list[size - 1])
  }

  /** The successors lead from each element of the list to the next one. */
  ghost predicate Chain(succ: seq<nat>, list: seq<nat>) {
    forall k :: 0 <= k < |list| - 1 ==> list[k] < |succ| && succ[list[k]] == list[k + 1]
  }

  /** The successors after linking the first n elements, one after the other. */
  function Links(succ: seq<nat>, list: seq<nat>, n: nat): (after: seq<nat>)
    requires n <= |list| && forall k :: 0 <= k < |list| ==> list[k] < |succ|
    ensures |after| == |succ|
  {
    if n <= 1 then succ else Links(succ, list, n - 1)[list[n - 2] := list[n - 1]]
  }

  /** No index is followed by two different ones. */
  ghost predicate Unambiguous(list: seq<nat>) {
    forall i, j :: 0 <= i < |list| - 1 && 0 <= j < |list| - 1 && list[i] == list[j] ==> list[i + 1] == list[j + 1]
  }

  /** The last link written counts. */
  lemma {:induction false} LastLink(succ: seq<nat>, list: seq<nat>, n: nat, i: nat) returns (k: nat)
    requires n <= |list| && (forall k :: 0 <= k < |list| ==> list[k] < |succ|) && i + 1 < n
    ensures i <= k && k + 1 < n && list[k] == list[i] && Links(succ, list, n)[list[i]] == list[k + 1]
  {
    if list[n - 2] == list[i] {
      k := n - 2;
    } else {
      k := LastLink(succ, list, n - 1, i);
    }
  }

  /** The links of a list lead along it if and only if no index is followed by two
      different ones; repeated indices alone do no harm. */
  lemma LinksExact(succ: seq<nat>, list: seq<nat>)
    requires forall k :: 0 <= k < |list| ==> list[k] < |succ|
    ensures Chain(Links(succ, list, |list|), list) <==> Unambiguous(list)
  {
    hide Links;
    if Unambiguous(list) {
      forall i | 0 <= i < |list| - 1 ensures Links(succ, list, |list|)[list[i]] == list[i + 1] {
        var k := LastLink(succ, list, |list|, i);
      }
    }
  }

  /** Of two lists that repeat an index, one can be followed. */
  lemma RepeatedIndex()
    ensures Unambiguous([0, 1, 0]) && !Unambiguous([0, 1, 0, 2])
  {
    var list: seq<nat> := [0, 1, 0, 2];
    assert list[0] == list[2] && list[0 + 1] != list[2 + 1];
  }

  lemma ChainExtend(succ: seq<nat>, list: seq<nat>, idx: nat)
    requires Chain(succ, list) && NoDup(list) && list != [] && list[|list| - 1] < |succ|
    ensures Chain(succ[list[|list| - 1] := idx], list + [idx])
  {}

  lemma ChainJoin(succ: seq<nat>, a: seq<nat>, b: seq<nat>)
    requires Chain(succ, a) && Chain(succ, b)
    requires a != [] && b != [] ==> a[|a| - 1] < |succ| && succ[a[|a| - 1]] == b[0]
    ensures Chain(succ, a + b)
  {}

  lemma ChainKeep(succ: seq<nat>, succ': seq<nat>, list: seq<nat>)
    requires Chain(succ, list) && |succ| == |succ'|
    requires forall k :: 0 <= k < |list| - 1 ==> list[k] < |succ| && succ'[list[k]] == succ[list[k]]
    ensures Chain(succ', list)
  {}

  lemma ChainSlice(succ: seq<nat>, list: seq<nat>, a: nat, b: nat)
    requires Chain(succ, list) && a <= b <= |list|
    ensures Chain(succ, list[a..b])
  {}

  /** The elements of the list that fall into sub-cube c, in their order. */
  ghost function Part(o: Cube, pts: seq<Point>, list: seq<nat>, c: nat): (p: seq<nat>)
    requires Within(list, |pts|)
    ensures Within(p, |pts|)
  {
    if list == [] then [] else
    var n := |list| - 1;
    Part(o, pts, list[..n], c) + if o.Code(pts[list[n]]) == c then [list[n]] else []
  }

  lemma {:induction false} PartHas(o: Cube, pts: seq<Point>, list: seq<nat>, c: nat, i: nat)
    requires Within(list, |pts|)
    ensures i in Part(o, pts, list, c) <==> i in list && o.Code(pts[i]) == c
  {
    if list == [] {
    } else {
      var n := |list| - 1;
      PartHas(o, pts, list[..n], c, i);
      assert list == list[..n] + [list[n]];
    }
  }

  lemma {:induction false} PartNoDup(o: Cube, pts: seq<Point>, list: seq<nat>, c: nat)
    requires Within(list, |pts|) && NoDup(list)
    ensures NoDup(Part(o, pts, list, c))
  {
    if list == [] {
    } else {
      var n := |list| - 1;
      PartNoDup(o, pts, list[..n], c);
      PartHas(o, pts, list[..n], c, list[n]);
      assert list[n] !in list[..n];
    }
  }

  lemma PartStep(o: Cube, pts: seq<Point>, list: seq<nat>, c: nat, i: nat)
    requires Within(list, |pts|) && i < |list|
    ensures Part(o, pts, list[..i + 1], c)
         == Part(o, pts, list[..i], c) + if o.Code(pts[list[i]]) == c then [list[i]] else []
  {
    assert list[..i + 1][..i] == list[..i];
  }

  /** The parts of a list inside the cube lie in their sub-cubes. */
  lemma PartIn(o: Cube, pts: seq<Point>, list: seq<nat>, c: nat)
    requires Within(list, |pts|) && AllIn(o, pts, list)
    ensures AllIn(o.Sub(c), pts, Part(o, pts, list, c))
  {
    var p := Part(o, pts, list, c);
    forall k | 0 <= k < |p| ensures o.Sub(c).Has(pts[p[k]]) {
      PartHas(o, pts, list, c, p[k]);
      SubHas(o, pts[p[k]]);
    }
  }

  /** The first c parts after each other. */
  ghost function Parts(o: Cube, pts: seq<Point>, list: seq<nat>, c: nat): seq<nat>
    requires Within(list, |pts|)
  {
    if c == 0 then [] else Parts(o, pts, list, c - 1) + Part(o, pts, list, c - 1)
  }

  lemma {:induction false} PartsHas(o: Cube, pts: seq<Point>, list: seq<nat>, c: nat, i: nat)
    requires Within(list, |pts|)
    ensures i in Parts(o, pts, list, c) <==> i in list && o.Code(pts[i]) < c
  {
    hide Part, Cube.Code;
    if c == 0 {
    } else {
      PartsHas(o, pts, list, c - 1, i);
      PartHas(o, pts, list, c - 1, i);
    }
  }

  lemma LastPart(o: Cube, pts: seq<Point>, list: seq<nat>, c: nat)
    requires Within(list, |pts|) && list != []
    ensures var n := |list| - 1;
      |Part(o, pts, list, c)| == |Part(o, pts, list[..n], c)| + if o.Code(pts[list[n]]) == c then 1 else 0
  {
    hide Cube.Code;
  }

  lemma PartsMore(o: Cube, pts: seq<Point>, list: seq<nat>, c: nat)
    requires Within(list, |pts|) && c > 0
    ensures |Parts(o, pts, list, c)| == |Parts(o, pts, list, c - 1)| + |Part(o, pts, list, c - 1)|
  {
    hide Part;
  }

  lemma {:induction false} PartsLength(o: Cube, pts: seq<Point>, list: seq<nat>, c: nat)
    requires Within(list, |pts|) && list != []
    ensures var n := |list| - 1;
      |Parts(o, pts, list, c)| == |Parts(o, pts, list[..n], c)| + if o.Code(pts[list[n]]) < c then 1 else 0
  {
    hide Part, Parts, Cube.Code;
    var front := list[..|list| - 1];
    if c == 0 {
      PartsAtZero(o, pts, list);
      PartsAtZero(o, pts, front);
    } else {
      PartsLength(o, pts, list, c - 1);
      LastPart(o, pts, list, c - 1);
      PartsMore(o, pts, list, c);
      PartsMore(o, pts, front, c);
    }
  }

  lemma PartsAtZero(o: Cube, pts: seq<Point>, list: seq<nat>)
    requires Within(list, |pts|)
    ensures Parts(o, pts, list, 0) == []
  {}

  lemma {:induction false} AllParts(o: Cube, pts: seq<Point>, list: seq<nat>)
    requires Within(list, |pts|)
    ensures |Parts(o, pts, list, 8)| == |list|
  {
    if list == [] {
      PartsOfNone(o, pts, 8);
    } else {
      AllParts(o, pts, list[..|list| - 1]);
      PartsLength(o, pts, list, 8);
    }
  }

  lemma {:induction false} PartsOfNone(o: Cube, pts: seq<Point>, c: nat)
    ensures Parts(o, pts, [], c) == []
  {
    if c == 0 {
    } else {
      PartsOfNone(o, pts, c - 1);
    }
  }

  /** The same indices, each once, in any order. */
  ghost predicate Rearranges(order: seq<nat>, list: seq<nat>) {
    NoDup(order) && |order| == |list| && forall i :: i in order <==> i in list
  }

  lemma RearrangesMore(a: seq<nat>, a': seq<nat>, b: seq<nat>, b': seq<nat>)
    requires Rearranges(a, a') && Rearranges(b, b')
    requires forall i :: i in a' ==> i !in b'
    ensures Rearranges(a + b, a' + b')
  {
    forall i, j | 0 <= i < j < |a + b| ensures (a + b)[i] != (a + b)[j] {
      if i < |a| <= j {
        assert a[i] in a && b[j - |a|] in b;
      }
    }
  }

  /** No index is lost or doubled when a list is cut into its parts. */
  lemma PartsRearrange(o: Cube, pts: seq<Point>, list: seq<nat>, order: seq<nat>)
    requires Within(list, |pts|) && Rearranges(order, Parts(o, pts, list, 8))
    ensures Rearranges(order, list)
  {
    AllParts(o, pts, list);
    forall i ensures i in order <==> i in list {
      PartsHas(o, pts, list, 8, i);
    }
  }

  // ----- what createOctant builds

  function SizeOf(o: Octant): nat {
    if o.Null? then 0 else o.size
  }

  /** How many points the children before c hold. */
  function Offset(child: seq<Octant>, c: nat): nat
    requires c <= |child|
  {
    if c == 0 then 0 else Offset(child, c - 1) + SizeOf(child[c - 1])
  }

  lemma {:induction false} OffsetMonotone(child: seq<Octant>, c: nat, d: nat)
    requires c <= d <= |child|
    ensures Offset(child, c) <= Offset(child, d)
  {
    if c == d {
    } else {
      OffsetMonotone(child, c, d - 1);
    }
  }

  lemma {:induction false} OffsetKeep(a: seq<Octant>, b: seq<Octant>, c: nat)
    requires c <= |a| && |a| == |b| && a[..c] == b[..c]
    ensures Offset(a, c) == Offset(b, c)
  {
    if c == 0 {
    } else {
      assert a[c - 1] == a[..c][c - 1] == b[..c][c - 1] == b[c - 1];
      assert a[..c - 1] == a[..c][..c - 1];
      assert b[..c - 1] == b[..c][..c - 1];
      OffsetKeep(a, b, c - 1);
    }
  }

  /** The stretch of the order that child c holds. */
  ghost function Stretch(child: seq<Octant>, order: seq<nat>, c: nat): seq<nat>
    requires c < |child| && Offset(child, c + 1) <= |order|
  {
    order[Offset(child, c)..Offset(child, c + 1)]
  }

  /** The octant holds the points of `order`: start and end are its first and
      last element, every point lies in the cube, and in an inner octant the
      children hold consecutive stretches of it, each the points of one code. */
  ghost predicate Built(o: Octant, params: Params, pts: seq<Point>, order: seq<nat>)
    decreases o
  {
    && o.Octant? && o.size > 0 && |o.child| == 8
    && Described(o.start, o.end, o.size, order)
    && Within(order, |pts|) && AllIn(o.cube, pts, order)
    && o.isLeaf == !Splits(params, o.size, o.cube.extent)
    && (!o.isLeaf ==> Offset(o.child, 8) == o.size && Bounded(o.child, o.size))
    && (!o.isLeaf ==> forall c :: 0 <= c < 8 && o.child[c].Octant? ==>
          && o.child[c].cube == o.cube.Sub(c)
          && Built(o.child[c], params, pts, Stretch(o.child, order, c))
          && Coded(o.cube, pts, Stretch(o.child, order, c), c))
  }

  /** An octant is divided if and only if it holds more points than a bucket and its
      children are larger than the least extent; they are half as large. */
  lemma DividedIff(o: Octant, params: Params, pts: seq<Point>, order: seq<nat>)
    requires Built(o, params, pts, order)
    ensures !o.isLeaf <==> |order| > params.bucketSize && o.cube.extent / 2.0 > params.minExtent
    ensures !o.isLeaf ==> forall c :: 0 <= c < |o.child| && o.child[c].Octant? ==>
      params.minExtent < o.child[c].cube.extent == o.cube.extent / 2.0
  {
    hide AllIn, Coded, Stretch, Offset;
  }

  ghost predicate Bounded(child: seq<Octant>, n: nat) {
    forall c :: 0 <= c <= |child| ==> Offset(child, c) <= n
  }

  ghost predicate Coded(o: Cube, pts: seq<Point>, list: seq<nat>, c: nat) {
    Within(list, |pts|) && forall k :: 0 <= k < |list| ==> o.Code(pts[list[k]]) == c
  }

  // ----- when the subdivision comes to an end

  /** The subdivision of the list ends after at most `fuel` levels. */
  ghost predicate Finishes(fuel: nat, params: Params, pts: seq<Point>, o: Cube, list: seq<nat>)
    requires Within(list, |pts|)
  {
    Splits(params, |list|, o.extent) ==>
      fuel > 0 && forall c :: 0 <= c < 8 ==> Finishes(fuel - 1, params, pts, o.Sub(c), Part(o, pts, list, c))
  }

  /** How many of the listed points are at v. */
  function CountAt(pts: seq<Point>, list: seq<nat>, v: Point): (n: nat)
    requires forall k :: 0 <= k < |list| ==> list[k] < |pts|
    ensures n <= |list|
  {
    if list == [] then 0 else
    var n := |list| - 1;
    CountAt(pts, list[..n], v) + if pts[list[n]] == v then 1 else 0
  }

  /** No location holds more points than a bucket takes. */
  ghost predicate Uncrowded(bucketSize: nat, pts: seq<Point>, list: seq<nat>)
    requires Within(list, |pts|)
  {
    forall v: Point :: CountAt(pts, list, v) <= bucketSize
  }

  ghost predicate Coincide(pts: seq<Point>, list: seq<nat>)
    requires Within(list, |pts|)
  {
    forall j, k :: 0 <= j < |list| && 0 <= k < |list| ==> pts[list[j]] == pts[list[k]]
  }

  predicate Apart(p: Point, q: Point, d: real) {
    Abs(p.x - q.x) >= d || Abs(p.y - q.y) >= d || Abs(p.z - q.z) >= d
  }

  /** Points at different locations are at least d apart. */
  ghost predicate Separated(pts: seq<Point>, list: seq<nat>, d: real)
    requires Within(list, |pts|)
  {
    forall j, k :: j in list && k in list && pts[j] != pts[k] ==> Apart(pts[j], pts[k], d)
  }

  lemma {:induction false} CountPart(o: Cube, pts: seq<Point>, list: seq<nat>, c: nat, v: Point)
    requires Within(list, |pts|)
    ensures CountAt(pts, Part(o, pts, list, c), v) == if o.Code(v) == c then CountAt(pts, list, v) else 0
  {
    if list == [] {
    } else {
      var n := |list| - 1;
      var front, last := list[..n], list[n];
      CountPart(o, pts, front, c, v);
      assert list == front + [last];
      var p := Part(o, pts, front, c);
      assert Part(o, pts, list, c) == if o.Code(pts[last]) == c then p + [last] else p;
      hide Part, CountAt, Cube.Code;
      CountMore(pts, front, last, v);
      CountMore(pts, p, last, v);
    }
  }

  lemma CountMore(pts: seq<Point>, list: seq<nat>, last: nat, v: Point)
    requires Within(list, |pts|) && last < |pts|
    ensures CountAt(pts, list + [last], v) == CountAt(pts, list, v) + if pts[last] == v then 1 else 0
  {
    assert (list + [last])[..|list|] == list;
  }

  lemma {:induction false} CountAll(pts: seq<Point>, list: seq<nat>, v: Point)
    requires Within(list, |pts|) && forall k :: 0 <= k < |list| ==> pts[list[k]] == v
    ensures CountAt(pts, list, v) == |list|
  {
    if list == [] {
    } else {
      CountAll(pts, list[..|list| - 1], v);
    }
  }

  /** A crowded location is never divided: the subdivision does not end. */
  lemma {:induction false} CrowdNeverFinishes(fuel: nat, params: Params, pts: seq<Point>, o: Cube, list: seq<nat>,
                                              v: Point)
    requires Within(list, |pts|) && CountAt(pts, list, v) > params.bucketSize
    requires params.minExtent <= 0.0 && o.extent > 2.0 * params.minExtent
    ensures !Finishes(fuel, params, pts, o, list)
  {
    if fuel == 0 {
    } else {
      var c := o.Code(v);
      CountPart(o, pts, list, c, v);
      CrowdNeverFinishes(fuel - 1, params, pts, o.Sub(c), Part(o, pts, list, c), v);
    }
  }

  ghost function Reach(fuel: nat, base: real): real {
    if fuel == 0 then base else 2.0 * Reach(fuel - 1, base)
  }

  lemma {:induction false} ReachGrows(fuel: nat, base: real)
    requires base > 0.0
    ensures Reach(fuel, base) >= base && Reach(fuel, base) >= (fuel as real) * base
  {
    if fuel == 0 {
    } else {
      ReachGrows(fuel - 1, base);
      assert (fuel as real) * base == ((fuel - 1) as real) * base + base;
    }
  }

  lemma ReachExceeds(base: real, extent: real) returns (fuel: nat)
    requires base > 0.0 && extent >= 0.0
    ensures extent <= Reach(fuel, base)
  {
    var q := extent / base;
    Quotient(extent, base);
    fuel := q.Floor + 1;
    ReachAt(fuel, q, base);
  }

  lemma ReachAt(fuel: nat, q: real, base: real)
    requires base > 0.0 && q <= fuel as real
    ensures q * base <= Reach(fuel, base)
  {
    ReachGrows(fuel, base);
    Scale(q, fuel as real, base);
  }

  lemma Quotient(a: real, base: real)
    requires base > 0.0 && a >= 0.0
    ensures a / base * base == a && a / base >= 0.0
  {}

  lemma Scale(a: real, b: real, base: real)
    requires a <= b && base > 0.0
    ensures a * base <= b * base
  {}

  lemma {:induction false} MinExtentFinishes(fuel: nat, params: Params, pts: seq<Point>, o: Cube, list: seq<nat>)
    requires Within(list, |pts|) && o.extent <= Reach(fuel, 2.0 * params.minExtent)
    ensures Finishes(fuel, params, pts, o, list)
  {
    if fuel == 0 {
    } else {
      forall c | 0 <= c < 8 ensures Finishes(fuel - 1, params, pts, o.Sub(c), Part(o, pts, list, c)) {
        MinExtentFinishes(fuel - 1, params, pts, o.Sub(c), Part(o, pts, list, c));
      }
    }
  }

  lemma NearTogether(o: Cube, pts: seq<Point>, list: seq<nat>, d: real)
    requires Within(list, |pts|) && AllIn(o, pts, list) && Separated(pts, list, d) && o.extent <= d / 4.0 && d > 0.0
    ensures Coincide(pts, list)
  {
    hide Apart, Cube.Has;
    forall j, k | 0 <= j < |list| && 0 <= k < |list| ensures pts[list[j]] == pts[list[k]] {
      assert list[j] in list && list[k] in list;
      InSmallCube(o, pts[list[j]], pts[list[k]], d);
    }
  }

  lemma InSmallCube(o: Cube, p: Point, q: Point, d: real)
    requires o.Has(p) && o.Has(q) && o.extent <= d / 4.0 && d > 0.0
    ensures !Apart(p, q, d)
  {}

  lemma {:induction false} SeparatedFinishes(fuel: nat, params: Params, pts: seq<Point>, o: Cube, list: seq<nat>,
                                             d: real)
    requires Within(list, |pts|) && AllIn(o, pts, list) && Separated(pts, list, d) && d > 0.0
    requires Uncrowded(params.bucketSize, pts, list)
    requires o.extent <= Reach(fuel, d / 4.0)
    ensures Finishes(fuel, params, pts, o, list)
  {
    if fuel == 0 {
      NearTogether(o, pts, list, d);
      if list != [] {
        CountAll(pts, list, pts[list[0]]);
      }
    } else {
      forall c | 0 <= c < 8 ensures Finishes(fuel - 1, params, pts, o.Sub(c), Part(o, pts, list, c)) {
        var p := Part(o, pts, list, c);
        PartIn(o, pts, list, c);
        forall i ensures i in p ==> i in list {
          if i in p { PartHas(o, pts, list, c, i); }
        }
        forall v: Point ensures CountAt(pts, p, v) <= params.bucketSize {
          CountPart(o, pts, list, c, v);
        }
        SeparatedFinishes(fuel - 1, params, pts, o.Sub(c), p, d);
      }
    }
  }

  lemma {:induction false} SeparationFrom(pts: seq<Point>, list: seq<nat>, p: Point) returns (d: real)
    requires Within(list, |pts|)
    ensures d > 0.0 && forall j :: j in list && pts[j] != p ==> Apart(pts[j], p, d)
  {
    if list == [] {
      d := 1.0;
    } else {
      var n := |list| - 1;
      d := SeparationFrom(pts, list[..n], p);
      var q := pts[list[n]];
      if q != p {
        var e := Max(Max(Abs(q.x - p.x), Abs(q.y - p.y)), Abs(q.z - p.z));
        d := if e < d then e else d;
      }
      assert list == list[..n] + [list[n]];
    }
  }

  /** Finitely many points are separated by some positive distance. */
  lemma {:induction false} SeparationExists(pts: seq<Point>, list: seq<nat>) returns (d: real)
    requires Within(list, |pts|)
    ensures d > 0.0 && Separated(pts, list, d)
  {
    if list == [] {
      d := 1.0;
    } else {
      var n := |list| - 1;
      d := SeparationExists(pts, list[..n]);
      var e := SeparationFrom(pts, list[..n], pts[list[n]]);
      d := if e < d then e else d;
      assert list == list[..n] + [list[n]];
      forall j, k | j in list && k in list && pts[j] != pts[k] ensures Apart(pts[j], pts[k], d) {
        assert j in list[..n] || j == list[n];
        assert k in list[..n] || k == list[n];
      }
    }
  }

  /** What a caller can check beforehand. */
  ghost predicate Divisible(params: Params, pts: seq<Point>, list: seq<nat>)
    requires Within(list, |pts|)
  {
    || params.minExtent > 0.0
    || Uncrowded(params.bucketSize, pts, list)
    || (params.minExtent == 0.0 && Coincide(pts, list))
  }

  /** The subdivision ends exactly if the smallest extent is positive, no
      location overfills a bucket, or the root is not divided at all. */
  lemma SubdivisionEnds(params: Params, pts: seq<Point>, o: Cube, list: seq<nat>)
    requires Within(list, |pts|) && AllIn(o, pts, list) && o.extent >= 0.0
    requires o.extent == 0.0 <==> Coincide(pts, list)
    ensures (exists fuel: nat :: Finishes(fuel, params, pts, o, list)) <==> Divisible(params, pts, list)
  {
    if params.minExtent > 0.0 {
      var fuel := ReachExceeds(2.0 * params.minExtent, o.extent);
      MinExtentFinishes(fuel, params, pts, o, list);
      assert Finishes(fuel, params, pts, o, list);
    } else if Uncrowded(params.bucketSize, pts, list) {
      var d := SeparationExists(pts, list);
      var fuel := ReachExceeds(d / 4.0, o.extent);
      SeparatedFinishes(fuel, params, pts, o, list, d);
      assert Finishes(fuel, params, pts, o, list);
    } else if params.minExtent == 0.0 && Coincide(pts, list) {
      assert Finishes(0, params, pts, o, list);
    } else {
      var v: Point :| CountAt(pts, list, v) > params.bucketSize;
      forall fuel: nat ensures !Finishes(fuel, params, pts, o, list) {
        CrowdNeverFinishes(fuel, params, pts, o, list, v);
      }
    }
  }
}
