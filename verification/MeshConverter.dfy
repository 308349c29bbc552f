/** The conversion of a mesh into a regular grid. */
module MeshConverter {
  import opened Slots
  import opened Geometry
  import opened Simplex
  import opened MeshElements
  import opened MeshSearch
  import opened Tuples
  import opened Positions
  import opened Wrappers
  import opened FieldSlots
  import Arith
  import FieldParser
  import Octants
  import Octrees
  import Queries

  datatype Grid = Grid(dim: nat, nx: nat, ny: nat, nz: nat, min: Point, step: Point)
  {
    function Layout(): Dimensions {
      Dimensions(nx, ny, nz)
    }

    /** The centre of cell (i, j, k); a two-dimensional mesh has no x. */
    function Centre(i: nat, j: nat, k: nat): Point {
      Point(if dim == 2 then 0.0 else Middle(min.x, step.x, i), Middle(min.y, step.y, j), Middle(min.z, step.z, k))
    }
  }

  /** min + (n + 1/2) * step. */
  function Middle(min: real, step: real, n: nat): real {
    min + Mul(step, n as real + 0.5)
  }

  lemma MiddleStep(min: real, step: real, n: nat)
    ensures Middle(min, step, 0) == min + step / 2.0
    ensures Middle(min, step, n + 1) == Middle(min, step, n) + step
  {
    assert (n + 1) as real == n as real + 1.0;
    assert Mul(step, 0.5) == step / 2.0;
    Gather(step, n as real + 0.5, 1.0);
    Unit(step);
    hide Mul;
  }

  // ----- the grid over the mesh

  /** The least and the greatest coordinate c of the points. */
  ghost predicate Extremes(points: seq<Point>, c: nat, lo: real, hi: real)
    requires c < 3
  {
    && (forall i :: 0 <= i < |points| ==> lo <= Coord(points[i], c) <= hi)
    && (exists i :: 0 <= i < |points| && Coord(points[i], c) == lo)
    && exists i :: 0 <= i < |points| && Coord(points[i], c) == hi
  }

  method MinMax(points: seq<Point>, c: nat) returns (lo: real, hi: real)
    requires points != [] && c < 3
    ensures Extremes(points, c, lo, hi)
  {
    hide Coord;
    lo, hi := Coord(points[0], c), Coord(points[0], c);
    for i := 1 to |points|
      invariant forall j :: 0 <= j < i ==> lo <= Coord(points[j], c) <= hi
      invariant exists j :: 0 <= j < |points| && Coord(points[j], c) == lo
      invariant exists j :: 0 <= j < |points| && Coord(points[j], c) == hi
    {
      if Coord(points[i], c) < lo {
        lo := Coord(points[i], c);
      }
      if hi < Coord(points[i], c) {
        hi := Coord(points[i], c);
      }
    }
  }

  /** The pitch of n cells. Without cells it is not used; the code divides by zero. */
  function Pitch(lo: real, hi: real, n: nat): real {
    if n == 0 then 0.0 else (hi - lo) / (n as real)
  }

  /** The cells of one coordinate divide the span of the points evenly. */
  ghost predicate Divides(points: seq<Point>, c: nat, min: real, step: real, n: nat)
    requires c < 3
  {
    exists hi :: Extremes(points, c, min, hi) && Tiles(min, hi, step, n)
  }

  /** n cells lead from the lower bound to the upper one. */
  ghost predicate Tiles(lo: real, hi: real, step: real, n: nat) {
    n > 0 ==> lo + Mul(step, n as real) == hi
  }

  lemma PitchTiles(lo: real, hi: real, n: nat)
    ensures Tiles(lo, hi, Pitch(lo, hi, n), n)
  {
    if n > 0 {
      assert (hi - lo) / (n as real) * (n as real) == hi - lo;
    }
  }

  /** The grid covers the mesh; a two-dimensional one has width one in x. */
  ghost predicate Fitted(points: seq<Point>, g: Grid) {
    && Divides(points, 1, g.min.y, g.step.y, g.ny) && Divides(points, 2, g.min.z, g.step.z, g.nz)
    && (if g.dim == 2 then (exists hi :: Extremes(points, 0, g.min.x, hi)) && Tiles(g.min.x, 1.0, g.step.x, g.nx)
        else Divides(points, 0, g.min.x, g.step.x, g.nx))
  }

  /** The box from lo to hi bounds the points, and each of its sides has a point. */
  ghost predicate Bounding(points: seq<Point>, lo: Point, hi: Point) {
    && (forall i :: 0 <= i < |points| ==>
          lo.x <= points[i].x <= hi.x && lo.y <= points[i].y <= hi.y && lo.z <= points[i].z <= hi.z)
    && (exists i :: 0 <= i < |points| && points[i].x == lo.x) && (exists i :: 0 <= i < |points| && points[i].x == hi.x)
    && (exists i :: 0 <= i < |points| && points[i].y == lo.y) && (exists i :: 0 <= i < |points| && points[i].y == hi.y)
    && (exists i :: 0 <= i < |points| && points[i].z == lo.z) && (exists i :: 0 <= i < |points| && points[i].z == hi.z)
  }

  lemma ExtremesBound(points: seq<Point>, lo: Point, hi: Point)
    requires Extremes(points, 0, lo.x, hi.x) && Extremes(points, 1, lo.y, hi.y) && Extremes(points, 2, lo.z, hi.z)
    ensures Bounding(points, lo, hi)
  {}

  /** The bounds and the pitch of the new mesh: the cells lead from the least to the
      greatest coordinates of the points. In two dimensions, x ends at one. */
  method FitGrid(points: seq<Point>, dim: nat, nx: nat, ny: nat, nz: nat) returns (g: Grid, ghost hi: Point)
    requires points != []
    ensures g.dim == dim && g.nx == nx && g.ny == ny && g.nz == nz && Fitted(points, g)
    ensures Bounding(points, g.min, hi)
    ensures nx > 0 ==> g.min.x + g.step.x * (nx as real) == if dim == 2 then 1.0 else hi.x
    ensures ny > 0 ==> g.min.y + g.step.y * (ny as real) == hi.y
    ensures nz > 0 ==> g.min.z + g.step.z * (nz as real) == hi.z
  {
    hide Extremes, Pitch, Bounding;
    var minx, maxx := MinMax(points, 0);
    var miny, maxy := MinMax(points, 1);
    var minz, maxz := MinMax(points, 2);
    var width := if dim == 2 then 1.0 else maxx;
    var xstep, ystep, zstep := Pitch(minx, width, nx), Pitch(miny, maxy, ny), Pitch(minz, maxz, nz);
    g, hi := Grid(dim, nx, ny, nz, Point(minx, miny, minz), Point(xstep, ystep, zstep)), Point(maxx, maxy, maxz);
    PitchTiles(minx, width, nx);
    PitchTiles(miny, maxy, ny);
    PitchTiles(minz, maxz, nz);
    ExtremesBound(points, g.min, hi);
  }

  /** The middle of each cell lies within the span of the points. */
  lemma MiddleInside(points: seq<Point>, c: nat, min: real, step: real, n: nat, i: nat, hi: real)
    requires c < 3 && Extremes(points, c, min, hi) && Tiles(min, hi, step, n) && i < n
    ensures min <= Middle(min, step, i) <= hi
  {
    var w, x := hi - min, i as real + 0.5;
    assert w >= 0.0;
    hide Extremes;
    Within01(w, step, x, n as real);
  }

  lemma Within01(w: real, s: real, x: real, n: real)
    requires w >= 0.0 && 0.0 <= x <= n && n > 0.0 && Mul(s, n) == w
    ensures 0.0 <= Mul(s, x) <= w
  {
    assert s < 0.0 ==> s * n < 0.0;
    assert s * (n - x) >= 0.0 && s * x >= 0.0;
    assert s * (n - x) == s * n - s * x;
  }

  /** The cells lie side by side: each starts where the one before it ends, with its
      centre in the middle, and the last one ends at the upper bound. */
  lemma MiddlesTile(lo: real, hi: real, step: real, n: nat, i: nat)
    requires Tiles(lo, hi, step, n) && i < n
    ensures i == 0 ==> Middle(lo, step, i) - step / 2.0 == lo
    ensures Middle(lo, step, i + 1) - step / 2.0 == Middle(lo, step, i) + step / 2.0
    ensures i == n - 1 ==> Middle(lo, step, i) + step / 2.0 == hi
  {
    MiddleStep(lo, step, i);
    var m: nat := n - 1;
    Half(step, m, n);
    hide Mul;
  }

  lemma Half(step: real, m: nat, n: nat)
    requires n == m + 1
    ensures Mul(step, m as real + 0.5) + step / 2.0 == Mul(step, n as real)
  {
    assert n as real == m as real + 1.0;
  }

  /** The same for the grid, along all axes; a cell of a two-dimensional mesh has
      its centre at x = 0. */
  lemma CentresTile(g: Grid, hi: Point, i: nat, j: nat, k: nat)
    requires i < g.nx && j < g.ny && k < g.nz && Tiles(g.min.y, hi.y, g.step.y, g.ny)
    requires Tiles(g.min.z, hi.z, g.step.z, g.nz) && (g.dim != 2 ==> Tiles(g.min.x, hi.x, g.step.x, g.nx))
    ensures g.dim == 2 ==> g.Centre(i, j, k).x == 0.0
    ensures g.Centre(0, 0, 0).y == g.min.y + g.step.y / 2.0 && g.Centre(0, 0, 0).z == g.min.z + g.step.z / 2.0
    ensures g.dim != 2 ==> g.Centre(0, 0, 0).x == g.min.x + g.step.x / 2.0
    ensures g.Centre(i, j + 1, k) == g.Centre(i, j, k).(y := g.Centre(i, j, k).y + g.step.y)
    ensures g.Centre(i, j, k + 1) == g.Centre(i, j, k).(z := g.Centre(i, j, k).z + g.step.z)
    ensures g.dim != 2 ==> g.Centre(i + 1, j, k) == g.Centre(i, j, k).(x := g.Centre(i, j, k).x + g.step.x)
    ensures g.dim != 2 && i == g.nx - 1 ==> g.Centre(i, j, k).x + g.step.x / 2.0 == hi.x
    ensures j == g.ny - 1 ==> g.Centre(i, j, k).y + g.step.y / 2.0 == hi.y
    ensures k == g.nz - 1 ==> g.Centre(i, j, k).z + g.step.z / 2.0 == hi.z
  {
    if g.dim != 2 {
      MiddlesTile(g.min.x, hi.x, g.step.x, g.nx, i);
      MiddlesTile(g.min.x, hi.x, g.step.x, g.nx, 0);
    }
    MiddlesTile(g.min.y, hi.y, g.step.y, g.ny, j);
    MiddlesTile(g.min.y, hi.y, g.step.y, g.ny, 0);
    MiddlesTile(g.min.z, hi.z, g.step.z, g.nz, k);
    MiddlesTile(g.min.z, hi.z, g.step.z, g.nz, 0);
    hide Middle, Tiles;
  }

  /** The centre of every cell lies in the box of the mesh. */
  lemma CentreInside(points: seq<Point>, g: Grid, i: nat, j: nat, k: nat) returns (lo: Point, hi: Point)
    requires Fitted(points, g) && i < g.nx && j < g.ny && k < g.nz
    ensures Extremes(points, 0, lo.x, hi.x) && Extremes(points, 1, lo.y, hi.y) && Extremes(points, 2, lo.z, hi.z)
    ensures var q := g.Centre(i, j, k);
      (g.dim == 2 || lo.x <= q.x <= hi.x) && lo.y <= q.y <= hi.y && lo.z <= q.z <= hi.z
  {
    hide Extremes, Tiles, Middle;
    var x: real, y: real, z: real;
    if g.dim == 2 {
      x :| Extremes(points, 0, g.min.x, x);
    } else {
      x :| Extremes(points, 0, g.min.x, x) && Tiles(g.min.x, x, g.step.x, g.nx);
      MiddleInside(points, 0, g.min.x, g.step.x, g.nx, i, x);
    }
    y :| Extremes(points, 1, g.min.y, y) && Tiles(g.min.y, y, g.step.y, g.ny);
    z :| Extremes(points, 2, g.min.z, z) && Tiles(g.min.z, z, g.step.z, g.nz);
    MiddleInside(points, 1, g.min.y, g.step.y, g.ny, j, y);
    MiddleInside(points, 2, g.min.z, g.step.z, g.nz, k, z);
    lo, hi := g.min, Point(x, y, z);
  }

  // ----- one cell

  /** A search that interpolates needs a positive step. */
  ghost predicate Usable(points: seq<Point>, field: seq<Point>, dim: nat, o: Options) {
    && points != [] && |points| == |field| && (dim == 2 || dim == 3)
    && (o.interpolate ==> o.radiusStep > 0.0)
  }

  /** The octree holds all the points. */
  ghost predicate Indexes(octree: Octrees.Octree, points: seq<Point>)
    reads octree, octree.successors
  {
    octree.Valid() && octree.data == points && Octants.Rearranges(octree.order, Octrees.Indices(|points|))
  }

  ghost predicate NearestValue(points: seq<Point>, field: seq<Point>, m: Metric, q: Point, e: Point) {
    exists i: nat :: i < |points| && i < |field| && e == field[i] && forall j: nat :: j < |points| ==>
      m.Compute(q, points[i]) <= m.Compute(q, points[j])
  }

  /** The search around q can end like this. */
  ghost predicate Outcome(points: seq<Point>, field: seq<Point>, m: Metric, dim: nat, o: Options, q: Point,
                          r: SearchResult)
    requires |points| == |field|
  {
    exists lists, p :: Ended(points, field, m, dim, o, q, lists, p, r)
  }

  /** The value that belongs at q; None stands for one that is not finite. */
  ghost predicate ValueAt(points: seq<Point>, field: seq<Point>, m: Metric, dim: nat, o: Options, q: Point,
                          e: Option<Point>)
    requires |points| == |field|
  {
    match e
    case None => o.interpolate && Outcome(points, field, m, dim, o, q, NotFinite)
    case Some(value) =>
      if !o.interpolate then NearestValue(points, field, m, q, value)
      else
        || Outcome(points, field, m, dim, o, q, Found(value))
        || (o.allowFailure && Outcome(points, field, m, dim, o, q, Failed) && value == Point(0.0, 0.0, 0.0))
  }

  /** One cell: the value, or the exception. */
  method CellValue(octree: Octrees.Octree, points: seq<Point>, field: seq<Point>, m: Metric, dim: nat, o: Options,
                   q: Point)
    returns (r: Result<Option<Point>>)
    requires Usable(points, field, dim, o) && Indexes(octree, points) && m.Valid()
    ensures r.Ok? ==> ValueAt(points, field, m, dim, o, q, r.value)
    ensures r.Failure? ==> o.interpolate && !o.allowFailure && Outcome(points, field, m, dim, o, q, Failed)
    ensures o.interpolate && o.Strict() ==> (r.Failure? <==> !o.allowFailure && NoRadiusHolds(points, m, dim, o, q))
  {
    hide NoRadiusHolds, Ended, Metric.Compute, Metric.Valid;
    if !o.interpolate {
      var idx := octree.FindNeighbor(m, q, -1.0);
      AllCandidates(points, m, q, octree.order);
      assert 0 in octree.order;
      return Ok(Some(field[idx]));
    }
    var s, lists, p := Search(octree, points, field, m, dim, q, o);
    assert Outcome(points, field, m, dim, o, q, s);
    if o.Strict() {
      FailsIff(points, field, m, dim, o, q, lists, p, s);
    }
    match s {
      case Found(value) => return Ok(Some(value));
      case NotFinite => return Ok(None);
      case Failed =>
        if !o.allowFailure {
          return Failure;
        }
        return Ok(Some(Point(0.0, 0.0, 0.0)));
    }
  }

  /** Without a minimum distance, every point of the tree is a candidate. */
  lemma AllCandidates(points: seq<Point>, m: Metric, q: Point, order: seq<nat>)
    requires Octants.Rearranges(order, Octrees.Indices(|points|))
    ensures forall i: nat :: i in order <==> i < |points|
    ensures forall i: nat :: i < |points| ==> Queries.Query(m, q, -1.0).Candidate(points[i])
  {
    forall i: nat ensures i in order <==> i < |points| {
      assert i in Octrees.Indices(|points|) <==> i < |points| by {
        if i < |points| { assert Octrees.Indices(|points|)[i] == i; }
      }
    }
    forall i: nat | i < |points| ensures Queries.Query(m, q, -1.0).Candidate(points[i]) {
      ComputeIsNorm(m, q, points[i]);
    }
  }

  /** mesh_section: the cells over (x, y) from bottom to top. */
  method MeshSection(octree: Octrees.Octree, points: seq<Point>, field: seq<Point>, m: Metric, g: Grid, o: Options,
                     x: real, y: real)
    returns (r: Result<seq<Option<Point>>>)
    requires Usable(points, field, g.dim, o) && Indexes(octree, points) && m.Valid()
    ensures r.Ok? ==> |r.value| == g.nz
    ensures r.Ok? ==> forall k: nat :: k < g.nz ==>
      ValueAt(points, field, m, g.dim, o, Point(if g.dim == 2 then 0.0 else x, y, Middle(g.min.z, g.step.z, k)),
              r.value[k])
    ensures r.Failure? ==> o.interpolate && !o.allowFailure
    ensures r.Failure? ==> exists k: nat ::
      k < g.nz &&
      Outcome(points, field, m, g.dim, o, Point(if g.dim == 2 then 0.0 else x, y, Middle(g.min.z, g.step.z, k)), Failed)
  {
    hide ValueAt, Outcome, Indexes, Middle, Metric.Valid;
    var newMesh: seq<Option<Point>> := [];
    MiddleStep(g.min.z, g.step.z, 0);
    var z := g.min.z + g.step.z / 2.0;
    for k := 0 to g.nz
      invariant z == Middle(g.min.z, g.step.z, k) && |newMesh| == k
      invariant forall i: nat :: i < k ==>
        ValueAt(points, field, m, g.dim, o, Point(if g.dim == 2 then 0.0 else x, y, Middle(g.min.z, g.step.z, i)),
                newMesh[i])
    {
      var q := if g.dim == 2 then Point(0.0, y, z) else Point(x, y, z);
      var e := CellValue(octree, points, field, m, g.dim, o, q);
      if e.Failure? {
        return Failure;
      }
      newMesh := newMesh + [e.value];
      MiddleStep(g.min.z, g.step.z, k);
      z := z + g.step.z;
    }
    return Ok(newMesh);
  }

  // ----- slices and slots

  /** Row-major position of cell (i, j, k). */
  function Slot(g: Grid, i: nat, j: nat, k: nat): nat {
    CellNumber(g.Layout(), Cell(i, j, k))
  }

  /** The slices one after the other. */
  function Merged(slices: seq<seq<Option<Point>>>): seq<Option<Point>> {
    if slices == [] then [] else Merged(slices[..|slices| - 1]) + slices[|slices| - 1]
  }

  ghost predicate AllOf(slices: seq<seq<Option<Point>>>, n: nat) {
    forall s :: 0 <= s < |slices| ==> |slices[s]| == n
  }

  lemma {:induction false} MergedAt(slices: seq<seq<Option<Point>>>, n: nat, s: nat, k: nat)
    requires AllOf(slices, n)
    ensures |Merged(slices)| == |slices| * n
    ensures s < |slices| && k < n ==> s * n + k < |slices| * n && Merged(slices)[s * n + k] == slices[s][k]
  {
    if slices == [] {
    } else {
      var front, last := slices[..|slices| - 1], slices[|slices| - 1];
      MergedAt(front, n, s, k);
      assert Merged(slices) == Merged(front) + last && |last| == n && slices == front + [last];
      hide *;
      LastBlock(|front|, n, s, k);
      if s <= |front| && k < n {
        JoinedBlock(Merged(front), last, front, s, k, s * n + k);
      }
    }
  }

  lemma JoinedBlock(merged: seq<Option<Point>>, last: seq<Option<Point>>, front: seq<seq<Option<Point>>>, s: nat,
                    k: nat, at: nat)
    requires s <= |front| && k < |last|
    requires s < |front| ==> at < |merged| && k < |front[s]| && merged[at] == front[s][k]
    requires s == |front| ==> at == |merged| + k
    ensures at < |merged| + |last| && k < |(front + [last])[s]| && (merged + last)[at] == (front + [last])[s][k]
  {}

  lemma LastBlock(f: nat, n: nat, s: nat, k: nat)
    ensures (f + 1) * n == f * n + n
    ensures s < f && k < n ==> s * n + k < f * n
    ensures s == f && k < n ==> f * n <= s * n + k < f * n + n
  {
    if s < f && k < n {
      Row(s, f, n);
    }
  }

  lemma Row(s: nat, f: nat, n: nat)
    requires s < f
    ensures s * n + n <= f * n
  {
    if n > 0 {
      Arith.MulStrict(s, f, n);
    }
  }

  /** The slice over (i, j) holds the values of its cells. */
  ghost predicate SliceFor(points: seq<Point>, field: seq<Point>, m: Metric, g: Grid, o: Options, i: nat, j: nat,
                           slice: seq<Option<Point>>)
    requires Usable(points, field, g.dim, o)
  {
    |slice| == g.nz && forall k: nat :: k < g.nz ==> ValueAt(points, field, m, g.dim, o, g.Centre(i, j, k), slice[k])
  }

  ghost predicate SlicesUpTo(points: seq<Point>, field: seq<Point>, m: Metric, g: Grid, o: Options,
                             slices: seq<seq<Option<Point>>>)
    requires Usable(points, field, g.dim, o)
  {
    forall i: nat, j: nat {:trigger Column(g, i, j)} :: j < g.ny && Column(g, i, j) < |slices| ==>
      SliceFor(points, field, m, g, o, i, j, slices[Column(g, i, j)])
  }

  function Column(g: Grid, i: nat, j: nat): nat {
    i * g.ny + j
  }

  lemma ColumnUnique(g: Grid, i: nat, j: nat, i': nat, j': nat)
    requires j < g.ny && j' < g.ny && Column(g, i, j) == Column(g, i', j')
    ensures i == i' && j == j'
  {
    if i < i' {
      Row(i, i', g.ny);
    } else if i' < i {
      Row(i', i, g.ny);
    }
  }

  lemma MoreSlices(points: seq<Point>, field: seq<Point>, m: Metric, g: Grid, o: Options,
                   slices: seq<seq<Option<Point>>>, i: nat, j: nat, slice: seq<Option<Point>>)
    requires Usable(points, field, g.dim, o) && SlicesUpTo(points, field, m, g, o, slices)
    requires j < g.ny && |slices| == Column(g, i, j) && SliceFor(points, field, m, g, o, i, j, slice)
    ensures SlicesUpTo(points, field, m, g, o, slices + [slice])
  {
    hide SliceFor, Column;
    var more := slices + [slice];
    forall i': nat, j': nat | j' < g.ny && Column(g, i', j') < |more|
      ensures SliceFor(points, field, m, g, o, i', j', more[Column(g, i', j')])
    {
      if Column(g, i', j') == |slices| {
        ColumnUnique(g, i, j, i', j');
      }
    }
  }

  /** The walk over the grid, in the order in which the slices are collected. */
  method Walk(octree: Octrees.Octree, points: seq<Point>, field: seq<Point>, m: Metric, g: Grid, o: Options)
    returns (r: Result<seq<Option<Point>>>)
    requires Usable(points, field, g.dim, o) && Indexes(octree, points) && m.Valid()
    ensures r.Ok? ==> |r.value| == g.nx * g.ny * g.nz
    ensures r.Ok? ==> forall i: nat, j: nat, k: nat {:trigger Slot(g, i, j, k)} :: i < g.nx && j < g.ny && k < g.nz ==>
      Slot(g, i, j, k) < |r.value| && ValueAt(points, field, m, g.dim, o, g.Centre(i, j, k), r.value[Slot(g, i, j, k)])
    ensures r.Failure? ==> o.interpolate && !o.allowFailure
    ensures r.Failure? ==> exists i: nat, j: nat, k: nat ::
      i < g.nx && j < g.ny && k < g.nz && Outcome(points, field, m, g.dim, o, g.Centre(i, j, k), Failed)
  {
    hide ValueAt, Outcome, Indexes, Middle, Metric.Valid, SliceFor, SlicesUpTo, Merged, Column;
    var slices: seq<seq<Option<Point>>> := [];
    NoSlices(points, field, m, g, o);
    MiddleStep(g.min.x, g.step.x, 0);
    var x := g.min.x + g.step.x / 2.0;
    for i := 0 to g.nx
      invariant x == Middle(g.min.x, g.step.x, i) && |slices| == Column(g, i, 0)
      invariant AllOf(slices, g.nz) && SlicesUpTo(points, field, m, g, o, slices)
    {
      MiddleStep(g.min.y, g.step.y, 0);
      var y := g.min.y + g.step.y / 2.0;
      for j := 0 to g.ny
        invariant y == Middle(g.min.y, g.step.y, j) && |slices| == Column(g, i, j)
        invariant AllOf(slices, g.nz) && SlicesUpTo(points, field, m, g, o, slices)
      {
        var slice := MeshSection(octree, points, field, m, g, o, x, y);
        if slice.Failure? {
          ghost var k: nat :| k < g.nz &&
              Outcome(points, field, m, g.dim, o,
                      Point(if g.dim == 2 then 0.0 else x, y, Middle(g.min.z, g.step.z, k)), Failed);
          assert Outcome(points, field, m, g.dim, o, g.Centre(i, j, k), Failed);
          return Failure;
        }
        IsSlice(points, field, m, g, o, i, j, slice.value);
        MoreSlices(points, field, m, g, o, slices, i, j, slice.value);
        slices := slices + [slice.value];
        NextColumn(g, i, j);
        MiddleStep(g.min.y, g.step.y, j);
        y := y + g.step.y;
      }
      NextRow(g, i);
      MiddleStep(g.min.x, g.step.x, i);
      x := x + g.step.x;
    }
    var mesh: seq<Option<Point>> := [];
    for s := 0 to |slices|
      invariant mesh == Merged(slices[..s])
    {
      MergeOne(slices, s);
      mesh := mesh + slices[s];
    }
    assert slices[..|slices|] == slices;
    MeshIs(points, field, m, g, o, slices);
    return Ok(mesh);
  }

  lemma MergeOne(slices: seq<seq<Option<Point>>>, s: nat)
    requires s < |slices|
    ensures Merged(slices[..0]) == [] && Merged(slices[..s + 1]) == Merged(slices[..s]) + slices[s]
  {
    assert slices[..s + 1][..s] == slices[..s];
  }

  lemma NoSlices(points: seq<Point>, field: seq<Point>, m: Metric, g: Grid, o: Options)
    requires Usable(points, field, g.dim, o)
    ensures SlicesUpTo(points, field, m, g, o, []) && Column(g, 0, 0) == 0 && Merged([]) == []
  {}

  lemma IsSlice(points: seq<Point>, field: seq<Point>, m: Metric, g: Grid, o: Options, i: nat, j: nat,
                slice: seq<Option<Point>>)
    requires Usable(points, field, g.dim, o) && |slice| == g.nz
    requires forall k: nat :: k < g.nz ==>
      ValueAt(points, field, m, g.dim, o,
              Point(if g.dim == 2 then 0.0 else Middle(g.min.x, g.step.x, i), Middle(g.min.y, g.step.y, j),
                    Middle(g.min.z, g.step.z, k)), slice[k])
    ensures SliceFor(points, field, m, g, o, i, j, slice)
  {
    hide ValueAt, Middle;
  }

  lemma NextColumn(g: Grid, i: nat, j: nat)
    ensures Column(g, i, j + 1) == Column(g, i, j) + 1
  {}

  lemma NextRow(g: Grid, i: nat)
    ensures Column(g, i, g.ny) == Column(g, i + 1, 0)
  {
    assert (i + 1) * g.ny == i * g.ny + g.ny;
  }

  lemma ColumnBelow(g: Grid, i: nat, j: nat)
    requires i < g.nx && j < g.ny
    ensures Column(g, i, j) < Column(g, g.nx, 0) == g.nx * g.ny
  {
    Row(i, g.nx, g.ny);
  }

  lemma MeshIs(points: seq<Point>, field: seq<Point>, m: Metric, g: Grid, o: Options, slices: seq<seq<Option<Point>>>)
    requires Usable(points, field, g.dim, o) && AllOf(slices, g.nz) && SlicesUpTo(points, field, m, g, o, slices)
    requires |slices| == Column(g, g.nx, 0)
    ensures |Merged(slices)| == g.nx * g.ny * g.nz
    ensures forall i: nat, j: nat, k: nat {:trigger Slot(g, i, j, k)} :: i < g.nx && j < g.ny && k < g.nz ==>
      Slot(g, i, j, k) < |Merged(slices)| &&
      ValueAt(points, field, m, g.dim, o, g.Centre(i, j, k), Merged(slices)[Slot(g, i, j, k)])
  {
    MergedAt(slices, g.nz, 0, 0);
    hide ValueAt, Middle, Merged;
    forall i: nat, j: nat, k: nat | i < g.nx && j < g.ny && k < g.nz
      ensures Slot(g, i, j, k) < |Merged(slices)|
      ensures ValueAt(points, field, m, g.dim, o, g.Centre(i, j, k), Merged(slices)[Slot(g, i, j, k)])
    {
      ColumnBelow(g, i, j);
      MergedAt(slices, g.nz, Column(g, i, j), k);
      assert SliceFor(points, field, m, g, o, i, j, slices[Column(g, i, j)]);
    }
  }

  // ----- flattening

  /** How a cell is stored: three components of a vector field, or the one
      component that carries a scalar field, converted to internal units. */
  datatype Storage = Storage(vector: bool, scalarAxis: nat, units: real)
  {
    predicate Valid() {
      scalarAxis < 3
    }

    function N(): nat {
      if vector then 3 else 1
    }

    function Component(c: nat): nat {
      if vector then c else scalarAxis
    }

    function Entry(e: Option<Point>, c: nat): Option<real>
      requires Valid() && c < N()
    {
      match e
      case None => None
      case Some(value) => Some(Mul(Coord(value, Component(c)), units))
    }
  }

  lemma PlaceFacts(w: nat, n: nat, s: nat, c: nat)
    ensures Place(w, 0, 0) == 0 && Place(w, n + 1, 0) == Place(w, n, 0) + w && Place(w, n, c) == Place(w, n, 0) + c
    ensures s < n && c < w ==> Place(w, s, c) < Place(w, n, 0)
  {
    LastBlock(n, w, s, c);
  }

  /** The first n cells are stored one after the other. */
  ghost predicate Stored(mesh: seq<Option<Point>>, n: nat, st: Storage, data: seq<Option<real>>) {
    && st.Valid() && n <= |mesh| && |data| == Place(st.N(), n, 0)
    && forall s: nat, c: nat {:trigger Place(st.N(), s, c)} :: s < n && c < st.N() ==>
         Place(st.N(), s, c) < |data| && data[Place(st.N(), s, c)] == st.Entry(mesh[s], c)
  }

  lemma StoreNext(mesh: seq<Option<Point>>, n: nat, st: Storage, data: seq<Option<real>>, more: seq<Option<real>>)
    requires Stored(mesh, n, st, data) && n < |mesh|
    requires |more| == st.N() && forall c: nat :: c < st.N() ==> more[c] == st.Entry(mesh[n], c)
    ensures Stored(mesh, n + 1, st, data + more)
  {
    hide Storage.Entry, Place;
    var w, all := st.N(), data + more;
    PlaceFacts(w, n, 0, 0);
    forall s: nat, c: nat | s < n + 1 && c < w
      ensures Place(w, s, c) < |all| && all[Place(w, s, c)] == st.Entry(mesh[s], c)
    {
      PlaceFacts(w, n, s, c);
    }
  }

  lemma SlotIndex(g: Grid, i: nat, j: nat, k: nat)
    requires i < g.nx && j < g.ny && k < g.nz
    ensures i * g.ny * g.nz + j * g.nz + k == Slot(g, i, j, k) < g.nx * g.ny * g.nz
  {
    Arith.Distributes(i * g.ny, j, g.nz);
    Row(i, g.nx, g.ny);
    assert Column(g, i, j) < g.nx * g.ny;
    Row(Column(g, i, j), g.nx * g.ny, g.nz);
  }

  lemma NextSlots(g: Grid, i: nat, j: nat, k: nat)
    ensures Slot(g, i, j, k + 1) == Slot(g, i, j, k) + 1
    ensures Slot(g, i, j, g.nz) == Slot(g, i, j + 1, 0)
    ensures Slot(g, i, g.ny, 0) == Slot(g, i + 1, 0, 0)
    ensures Slot(g, 0, 0, 0) == 0 && Slot(g, g.nx, 0, 0) == g.nx * g.ny * g.nz
  {
    Arith.Distributes(i * g.ny + j, 1, g.nz);
    Arith.Distributes(i, 1, g.ny);
  }

  /** The components of a vector times the units; none is finite if the vector is not. */
  predicate IsVector(e: Option<Point>, units: real, x: Option<real>, y: Option<real>, z: Option<real>) {
    match e
    case Some(v) =>
      x.Some? && y.Some? && z.Some?
      && x.value == v.x * units && y.value == v.y * units && z.value == v.z * units
    case None => x == y == z == None
  }

  /** One coordinate of it. */
  predicate IsScalar(e: Option<Point>, axis: nat, units: real, x: Option<real>) {
    match e
    case Some(v) =>
      x.Some? && (axis == 0 ==> x.value == v.x * units) && (axis == 1 ==> x.value == v.y * units)
      && (axis == 2 ==> x.value == v.z * units)
    case None => x.None?
  }

  /** A vector field: x, y and z of each cell, one after the other. */
  ghost predicate StoredVectors(mesh: seq<Option<Point>>, units: real, data: seq<Option<real>>) {
    && |data| == 3 * |mesh|
    && forall s: nat {:trigger mesh[s]} :: s < |mesh| ==>
         IsVector(mesh[s], units, data[3 * s], data[3 * s + 1], data[3 * s + 2])
  }

  /** A scalar field: one coordinate of each cell. */
  ghost predicate StoredScalars(mesh: seq<Option<Point>>, axis: nat, units: real, data: seq<Option<real>>) {
    |data| == |mesh| && forall s: nat :: s < |mesh| ==> IsScalar(mesh[s], axis, units, data[s])
  }

  lemma StoredMeans(mesh: seq<Option<Point>>, st: Storage, data: seq<Option<real>>)
    requires st.Valid() && Stored(mesh, |mesh|, st, data)
    ensures st.vector ==> StoredVectors(mesh, st.units, data)
    ensures !st.vector ==> StoredScalars(mesh, st.scalarAxis, st.units, data)
  {
    StoredCount(mesh, st, data);
    hide Stored, IsVector, IsScalar;
    forall s: nat | s < |mesh|
      ensures st.vector ==> IsVector(mesh[s], st.units, data[3 * s], data[3 * s + 1], data[3 * s + 2])
      ensures !st.vector ==> IsScalar(mesh[s], st.scalarAxis, st.units, data[s])
    {
      EntriesMean(mesh[s], st);
      EntryAt(mesh, st, data, s, 0);
      if st.vector {
        EntryAt(mesh, st, data, s, 1);
        EntryAt(mesh, st, data, s, 2);
      }
    }
  }

  lemma EntriesMean(e: Option<Point>, st: Storage)
    requires st.Valid()
    ensures st.vector ==> IsVector(e, st.units, st.Entry(e, 0), st.Entry(e, 1), st.Entry(e, 2))
    ensures !st.vector ==> IsScalar(e, st.scalarAxis, st.units, st.Entry(e, 0))
  {}

  lemma StoredCount(mesh: seq<Option<Point>>, st: Storage, data: seq<Option<real>>)
    requires Stored(mesh, |mesh|, st, data)
    ensures |data| == (if st.vector then 3 * |mesh| else |mesh|)
  {}

  lemma EntryAt(mesh: seq<Option<Point>>, st: Storage, data: seq<Option<real>>, s: nat, c: nat)
    requires Stored(mesh, |mesh|, st, data) && s < |mesh| && c < st.N()
    ensures var i := if st.vector then 3 * s + c else s; i < |data| && data[i] == st.Entry(mesh[s], c)
  {
    hide Storage.Entry;
    assert Place(st.N(), s, c) == if st.vector then 3 * s + c else s;
  }

  /** The data of the field file. */
  method Flatten(mesh: seq<Option<Point>>, g: Grid, st: Storage) returns (data: seq<Option<real>>)
    requires st.Valid() && |mesh| == g.nx * g.ny * g.nz
    ensures Stored(mesh, |mesh|, st, data)
    ensures st.vector ==> StoredVectors(mesh, st.units, data)
    ensures !st.vector ==> StoredScalars(mesh, st.scalarAxis, st.units, data)
  {
    hide Stored, Slot, Mul, Coord, Storage.Entry, Scaled, StoredVectors, StoredScalars;
    data := [];
    NextSlots(g, 0, 0, 0);
    StoreNone(mesh, st);
    for i := 0 to g.nx
      invariant Stored(mesh, Slot(g, i, 0, 0), st, data)
    {
      for j := 0 to g.ny
        invariant Stored(mesh, Slot(g, i, j, 0), st, data)
      {
        for k := 0 to g.nz
          invariant Stored(mesh, Slot(g, i, j, k), st, data)
        {
          SlotIndex(g, i, j, k);
          var point := mesh[i * g.ny * g.nz + j * g.nz + k];
          var entries := if st.vector then [Scaled(point, 0, st.units), Scaled(point, 1, st.units),
                                            Scaled(point, 2, st.units)]
                         else if st.scalarAxis == 1 then [Scaled(point, 1, st.units)]
                         else if st.scalarAxis == 2 then [Scaled(point, 2, st.units)]
                         else [Scaled(point, 0, st.units)];
          Entries(point, st);
          StoreNext(mesh, Slot(g, i, j, k), st, data, entries);
          data := data + entries;
          NextSlots(g, i, j, k);
        }
        NextSlots(g, i, j, 0);
      }
      NextSlots(g, i, 0, 0);
    }
    NextSlots(g, 0, 0, 0);
    StoredMeans(mesh, st, data);
  }

  lemma StoreNone(mesh: seq<Option<Point>>, st: Storage)
    requires st.Valid()
    ensures Stored(mesh, 0, st, [])
  {}

  /** A component of a value that is not finite is not finite either. */
  function Scaled(e: Option<Point>, c: nat, units: real): Option<real> {
    match e
    case None => None
    case Some(value) => Some(Mul(if c == 0 then value.x else if c == 1 then value.y else value.z, units))
  }

  lemma Entries(e: Option<Point>, st: Storage)
    requires st.Valid()
    ensures st.vector ==> forall c: nat :: c < 3 ==> st.Entry(e, c) == Scaled(e, c, st.units)
    ensures !st.vector ==> st.Entry(e, 0) == Scaled(e, st.scalarAxis, st.units)
  {
    hide Mul;
  }

  // ----- from the mesh to the field

  /** Every cell of the new mesh has the value that belongs at its centre. */
  ghost predicate Meshed(points: seq<Point>, field: seq<Point>, m: Metric, g: Grid, o: Options,
                         mesh: seq<Option<Point>>)
    requires Usable(points, field, g.dim, o)
  {
    && |mesh| == g.nx * g.ny * g.nz
    && forall i: nat, j: nat, k: nat {:trigger Slot(g, i, j, k)} :: i < g.nx && j < g.ny && k < g.nz ==>
         Slot(g, i, j, k) < |mesh| && ValueAt(points, field, m, g.dim, o, g.Centre(i, j, k), mesh[Slot(g, i, j, k)])
  }

  /** From the mesh to the data of the field: the grid that covers the mesh, and
      the value of every cell at its slot. */
  method Convert(points: seq<Point>, field: seq<Point>, m: Metric, dim: nat, nx: nat, ny: nat, nz: nat, o: Options,
                 st: Storage)
    returns (g: Grid, r: Result<seq<Option<real>>>, ghost mesh: seq<Option<Point>>)
    requires Usable(points, field, dim, o) && m.Euclidean? && m.Valid() && st.Valid()
    requires Octants.Divisible(Octants.Params(32, 0.0), points, Octrees.Indices(|points|))
    ensures g.dim == dim && g.nx == nx && g.ny == ny && g.nz == nz && Fitted(points, g)
    ensures r.Ok? ==> Meshed(points, field, m, g, o, mesh) && Stored(mesh, |mesh|, st, r.value)
    ensures r.Ok? && st.vector ==> StoredVectors(mesh, st.units, r.value)
    ensures r.Ok? && !st.vector ==> StoredScalars(mesh, st.scalarAxis, st.units, r.value)
    ensures r.Failure? ==> o.interpolate && !o.allowFailure
    ensures r.Failure? ==> exists i: nat, j: nat, k: nat ::
      i < g.nx && j < g.ny && k < g.nz && Outcome(points, field, m, g.dim, o, g.Centre(i, j, k), Failed)
  {
    hide ValueAt, Outcome, Stored, StoredVectors, StoredScalars, Octants.Divisible, Metric.Valid, Fitted;
    ghost var hi;
    g, hi := FitGrid(points, dim, nx, ny, nz);
    var octree := new Octrees.Octree();
    octree.Initialize(points, Octants.Params(32, 0.0));
    var walked := Walk(octree, points, field, m, g, o);
    if walked.Failure? {
      r, mesh := Failure, [];
      return;
    }
    mesh := walked.value;
    var data := Flatten(walked.value, g, st);
    r := Ok(data);
  }

  /** Component c of the field is affine in the coordinates of the mesh points. */
  ghost predicate AffineField(points: seq<Point>, field: seq<Point>, c: nat, k: Point, b: real)
    requires |points| == |field|
  {
    forall t :: 0 <= t < |points| ==>
      (if c == 0 then field[t].x else if c == 1 then field[t].y else field[t].z) == Affine(k, b, points[t])
  }

  /** An interpolated value comes from the vertices of a good element. */
  lemma FromElement(points: seq<Point>, field: seq<Point>, m: Metric, dim: nat, o: Options, q: Point, e: Point)
    returns (t: seq<nat>)
    requires |points| == |field| && Outcome(points, field, m, dim, o, q, Found(e))
    ensures Shaped(points, dim, t) && Volume(dim, At(points, t)) != 0.0
    ensures e == Observable(dim, At(points, t), At(field, t), q)
  {
    hide Good, ValueOf, Volume, Observable, Ended;
    var lists, p :| Ended(points, field, m, dim, o, q, lists, p, Found(e));
    t := EndedFound(points, field, m, dim, o, q, lists, p, e);
  }

  lemma EndedFound(points: seq<Point>, field: seq<Point>, m: Metric, dim: nat, o: Options, q: Point,
                   lists: seq<seq<nat>>, p: seq<nat>, e: Point)
    returns (t: seq<nat>)
    requires |points| == |field| && Ended(points, field, m, dim, o, q, lists, p, Found(e))
    ensures Shaped(points, dim, t) && Volume(dim, At(points, t)) != 0.0
    ensures e == Observable(dim, At(points, t), At(field, t), q)
  {
    hide Good, ValueOf, Volume, Observable, Lists, QuietUpTo, FirstGood;
    var n: nat := |lists| - 1;
    var cut := o.Cut(lists, n + 1);
    FirstIsGood(points, cut, q, dim, lists[n], p);
    t := Pick(lists[n], p);
    ValueIs(points, field, cut, q, dim, t);
  }

  lemma ValueIs(points: seq<Point>, field: seq<Point>, cut: real, q: Point, dim: nat, t: seq<nat>)
    requires |points| == |field| && Good(points, cut, q, dim, t)
    ensures Shaped(points, dim, t) && Volume(dim, At(points, t)) != 0.0
    ensures ValueOf(points, field, cut, q, dim, t) == Observable(dim, At(points, t), At(field, t), q)
  {
    hide Passes, Volume, Observable;
  }

  /** A cell of an affine field: the affine value, or one that is not finite. */
  lemma AffineCell(points: seq<Point>, field: seq<Point>, m: Metric, dim: nat, o: Options, q: Point, e: Option<Point>,
                   c: nat, k: Point, b: real)
    requires |points| == |field| && c < 3 && (dim == 3 || k.x == 0.0)
    requires forall t :: 0 <= t < |points| ==> Coord(field[t], c) == Affine(k, b, points[t])
    requires o.interpolate && !o.allowFailure && ValueAt(points, field, m, dim, o, q, e)
    ensures e.Some? ==> Coord(e.value, c) == Affine(k, b, q)
    ensures e.None? ==> o.volumeCut <= 0.0 || o.allowDecay
  {
    hide Volume, Observable, Affine, Coord, Ended;
    match e {
      case Some(value) =>
        var t := FromElement(points, field, m, dim, o, q, value);
        ObservableAffine(dim, At(points, t), At(field, t), q, c, k, b);
      case None =>
        var lists, p :| Ended(points, field, m, dim, o, q, lists, p, NotFinite);
        FiniteWithCut(points, field, m, dim, o, q, lists, p);
    }
  }

  lemma StoredAt(mesh: seq<Option<Point>>, st: Storage, data: seq<Option<real>>, s: nat, c: nat)
    requires Stored(mesh, |mesh|, st, data) && s < |mesh| && c < st.N()
    ensures st.Component(c) < 3
    ensures Place(st.N(), s, c) < |data| && (data[Place(st.N(), s, c)].Some? <==> mesh[s].Some?)
    ensures mesh[s].Some? ==>
      data[Place(st.N(), s, c)].value == Mul(Coord(mesh[s].value, st.Component(c)), st.units)
  {
    hide Place;
    assert data[Place(st.N(), s, c)] == st.Entry(mesh[s], c);
  }

  lemma MeshedAt(points: seq<Point>, field: seq<Point>, m: Metric, g: Grid, o: Options, mesh: seq<Option<Point>>,
                 x: nat, y: nat, z: nat)
    requires Usable(points, field, g.dim, o) && Meshed(points, field, m, g, o, mesh)
    requires x < g.nx && y < g.ny && z < g.nz
    ensures Slot(g, x, y, z) < |mesh|
    ensures ValueAt(points, field, m, g.dim, o, g.Centre(x, y, z), mesh[Slot(g, x, y, z)])
  {
    hide ValueAt, Slot, Grid.Centre;
    assert Slot(g, x, y, z) < |mesh|;
  }

  /** End to end: an affine field is stored as its own, unit-converted value at
      the centre of each cell. With a volume cut and without decay, all are finite. */
  lemma EndToEnd(points: seq<Point>, field: seq<Point>, m: Metric, g: Grid, o: Options, st: Storage,
                 mesh: seq<Option<Point>>, data: seq<Option<real>>,
                 c: nat, k: Point, b: real, x: nat, y: nat, z: nat)
    requires Usable(points, field, g.dim, o) && o.interpolate && !o.allowFailure && st.Valid() && c < st.N()
    requires Meshed(points, field, m, g, o, mesh) && Stored(mesh, |mesh|, st, data)
    requires AffineField(points, field, if st.vector then c else st.scalarAxis, k, b) && (g.dim == 3 || k.x == 0.0)
    requires x < g.nx && y < g.ny && z < g.nz
    ensures Place(st.N(), Slot(g, x, y, z), c) < |data|
    ensures data[Place(st.N(), Slot(g, x, y, z), c)].Some? ==>
      data[Place(st.N(), Slot(g, x, y, z), c)].value == Mul(Affine(k, b, g.Centre(x, y, z)), st.units)
    ensures o.volumeCut > 0.0 && !o.allowDecay ==> data[Place(st.N(), Slot(g, x, y, z), c)].Some?
  {
    UsableSizes(points, field, g.dim, o);
    AxisField(points, field, st, c, k, b);
    hide *;
    MeshedAt(points, field, m, g, o, mesh, x, y, z);
    var s := Slot(g, x, y, z);
    StoredAt(mesh, st, data, s, c);
    AffineCell(points, field, m, g.dim, o, g.Centre(x, y, z), mesh[s], st.Component(c), k, b);
  }

  lemma AxisField(points: seq<Point>, field: seq<Point>, st: Storage, c: nat, k: Point, b: real)
    requires |points| == |field| && st.Valid() && c < st.N()
    requires AffineField(points, field, if st.vector then c else st.scalarAxis, k, b)
    ensures st.Component(c) < 3
    ensures forall t :: 0 <= t < |points| ==> Coord(field[t], st.Component(c)) == Affine(k, b, points[t])
  {
    hide Affine;
  }

  lemma UsableSizes(points: seq<Point>, field: seq<Point>, dim: nat, o: Options)
    requires Usable(points, field, dim, o)
    ensures |points| == |field|
  {}

  /** Through the file: what is parsed from the INIT file written of the data, when
      all of them are finite, has the affine value at the cell and component. */
  lemma ThroughFile(points: seq<Point>, field: seq<Point>, m: Metric, g: Grid, o: Options, st: Storage,
                    mesh: seq<Option<Point>>, data: seq<Option<real>>, numbers: seq<real>,
                    c: nat, k: Point, b: real, x: nat, y: nat, z: nat,
                    header: string, sizeX: real, sizeY: real, sizeZ: real, units: string, factor: real, um: real)
    returns (parsed: FieldParser.FieldData)
    requires Usable(points, field, g.dim, o) && o.interpolate && !o.allowFailure && st.Valid() && c < st.N()
    requires Meshed(points, field, m, g, o, mesh) && Stored(mesh, |mesh|, st, data)
    requires |numbers| == |data| && forall i :: 0 <= i < |data| ==> data[i] == Some(numbers[i])
    requires AffineField(points, field, if st.vector then c else st.scalarAxis, k, b) && (g.dim == 3 || k.x == 0.0)
    requires x < g.nx && y < g.ny && z < g.nz && factor != 0.0 && um != 0.0
    ensures |numbers| == SlotCount(g.Layout(), st.N())
    ensures FieldParser.Parse(FieldParser.Written(
                                FieldParser.FieldData(header, g.Layout(), sizeX, sizeY, sizeZ, numbers, 1.0),
                                st.N(), units, factor, um),
                              st.N(), factor, um) == FieldParser.Parsed(parsed)
    ensures parsed.dimensions == g.Layout() && SlotOf(g.Layout(), st.N(), Cell(x, y, z), c) < |parsed.data|
    ensures parsed.data[SlotOf(g.Layout(), st.N(), Cell(x, y, z), c)] == Mul(Affine(k, b, g.Centre(x, y, z)), st.units)
  {
    DataSize(points, field, m, g, o, st, mesh, data);
    hide *;
    EndToEnd(points, field, m, g, o, st, mesh, data, c, k, b, x, y, z);
    parsed := FieldParser.FieldData(header, g.Layout(), sizeX, sizeY, sizeZ, numbers, 1.0);
    FieldParser.RoundTrip(parsed, st.N(), units, factor, um);
    SlotIsPlace(g, st, x, y, z, c);
  }

  lemma SlotIsPlace(g: Grid, st: Storage, x: nat, y: nat, z: nat, c: nat)
    ensures SlotOf(g.Layout(), st.N(), Cell(x, y, z), c) == Place(st.N(), Slot(g, x, y, z), c)
  {}

  lemma DataSize(points: seq<Point>, field: seq<Point>, m: Metric, g: Grid, o: Options, st: Storage,
                 mesh: seq<Option<Point>>, data: seq<Option<real>>)
    requires Usable(points, field, g.dim, o) && Meshed(points, field, m, g, o, mesh) && Stored(mesh, |mesh|, st, data)
    ensures |data| == SlotCount(g.Layout(), st.N())
  {}
}
