/** The search for a mesh element around one point of the new grid. */
module MeshSearch {
  import opened Slots
  import opened Geometry
  import opened Simplex
  import opened MeshElements
  import opened Arrangements
  import opened Positions
  import opened Tuples
  import opened Wrappers
  import Choices
  import Functors
  import ForEach
  import Enumerations
  import Octants
  import Octrees
  import Queries

  // ----- the functor

  /** The functor object handed to for_each_combination. */
  class Combination {
    const grid: seq<Point>
    const field: seq<Point>
    const reference: Point
    const cut: real
    var valid: bool
    /** None stands for a value that is not finite. */
    var result: Option<Point>
    const gridElements: array<Point>
    const fieldElements: array<Point>

    ghost predicate Valid() {
      |grid| == |field| && gridElements != fieldElements && gridElements.Length == 4 &&
      fieldElements.Length == 4
    }

    constructor (grid: seq<Point>, field: seq<Point>, q: Point, volumeCut: real)
      requires |grid| == |field|
      ensures Valid() && this.grid == grid && this.field == field && reference == q && cut == volumeCut
      ensures !valid && fresh(gridElements) && fresh(fieldElements)
    {
      this.grid, this.field, reference, cut := grid, field, q, volumeCut;
      valid := false;
      result := Some(Point(0.0, 0.0, 0.0));
      gridElements := new Point[4](_ => Point(0.0, 0.0, 0.0));
      fieldElements := new Point[4](_ => Point(0.0, 0.0, 0.0));
    }

    /** operator(): true exactly for a good tuple, whose value is kept. A flat one
        that passes is rejected, but leaves `valid` set and a result that is not
        finite. */
    method Call(indices: seq<nat>) returns (stop: bool)
      requires Valid() && (|indices| == 3 || |indices| == 4) && Within(indices, |grid|)
      modifies this, gridElements, fieldElements
      ensures stop == Good(grid, cut, reference, |indices| - 1, indices)
      ensures valid && !stop <==> FlatPass(grid, cut, reference, |indices| - 1, indices)
      ensures stop ==> valid && result == Some(ValueOf(grid, field, cut, reference, |indices| - 1, indices))
      ensures valid && !stop ==> result == None
      ensures !valid ==> result == old(result)
    {
      var dimensions := |indices| - 1;
      for idx := 0 to |indices|
        invariant forall k ::
          0 <= k < idx ==> gridElements[k] == grid[indices[k]] && fieldElements[k] == field[indices[k]]
        invariant result == old(result)
      {
        gridElements[idx] := grid[indices[idx]];
        fieldElements[idx] := field[indices[idx]];
      }
      hide Passes, Volume, Observable;
      var element := new MeshElement(dimensions, gridElements[..], fieldElements[..]);
      assert element.Used() == At(grid, indices);
      assert element.eField[..dimensions + 1] == At(field, indices);
      valid := element.IsValid(cut, reference);
      if valid {
        if element.volume == 0.0 {
          result := None;
          return false;
        }
        var value := element.GetObservable(reference);
        result := Some(value);
      }
      stop := valid;
    }
  }

  // ----- the neighbours

  ghost predicate InBall(points: seq<Point>, m: Metric, q: Point, radius: real, i: nat) {
    i < |points| && m.Compute(q, points[i]) < m.Sqr(radius)
  }

  /** What the query for a radius shows: points of the ball, none twice, and all of
      them unless the query is misled by a negative radius. */
  ghost predicate Shown(points: seq<Point>, m: Metric, q: Point, radius: real, s: seq<nat>) {
    && NoDup(s) && (forall i: nat :: i in s ==> InBall(points, m, q, radius, i))
    && (Queries.Sound(m, radius) ==> forall i: nat :: InBall(points, m, q, radius, i) ==> i in s)
  }

  /** Nearest first. */
  ghost predicate Nearest(points: seq<Point>, m: Metric, q: Point, s: seq<nat>) {
    Within(s, |points|) && Ascending(points, m, q, s)
  }

  /** Some tuple of points of the ball makes a good element. */
  ghost predicate Holds(points: seq<Point>, m: Metric, cut: real, q: Point, dim: nat, radius: real) {
    exists t: seq<nat> ::
      NoDup(t) && (forall i :: 0 <= i < |t| ==> InBall(points, m, q, radius, t[i])) && Good(points, cut, q, dim, t)
  }

  /** No tuple of elements of the list does. */
  ghost predicate NoneOf(points: seq<Point>, cut: real, q: Point, dim: nat, s: seq<nat>) {
    forall t: seq<nat> :: NoDup(t) && (forall i :: 0 <= i < |t| ==> t[i] in s) ==> !Good(points, cut, q, dim, t)
  }

  function Insert(points: seq<Point>, m: Metric, q: Point, s: seq<nat>, i: nat): (r: seq<nat>)
    requires i < |points| && Within(s, |points|)
    ensures Within(r, |points|) && multiset(r) == multiset(s) + multiset{i}
  {
    if s == [] || m.Compute(points[s[|s| - 1]], q) <= m.Compute(points[i], q) then s + [i] else
    var n := |s| - 1;
    assert s == s[..n] + [s[n]];
    Insert(points, m, q, s[..n], i) + [s[n]]
  }

  ghost predicate Ascending(points: seq<Point>, m: Metric, q: Point, s: seq<nat>)
    requires Within(s, |points|)
  {
    forall i, j :: 0 <= i < j < |s| ==> m.Compute(points[s[i]], q) <= m.Compute(points[s[j]], q)
  }

  lemma AscendingMore(points: seq<Point>, m: Metric, q: Point, s: seq<nat>, last: nat)
    requires last < |points| && Within(s, |points|) && Ascending(points, m, q, s)
    requires s == [] || m.Compute(points[s[|s| - 1]], q) <= m.Compute(points[last], q)
    ensures Ascending(points, m, q, s + [last])
  {
    hide Metric.Compute;
  }

  lemma AscendingFront(points: seq<Point>, m: Metric, q: Point, s: seq<nat>)
    requires s != [] && Within(s, |points|) && Ascending(points, m, q, s)
    ensures Ascending(points, m, q, s[..|s| - 1])
  {
    hide Metric.Compute;
  }

  lemma BelowLast(points: seq<Point>, m: Metric, q: Point, front: seq<nat>, last: nat, i: nat, r: seq<nat>)
    requires last < |points| && i < |points| && Within(front, |points|) && Within(r, |points|)
    requires Ascending(points, m, q, front + [last])
    requires multiset(r) == multiset(front) + multiset{i} && m.Compute(points[i], q) <= m.Compute(points[last], q)
    ensures forall k :: 0 <= k < |r| ==> m.Compute(points[r[k]], q) <= m.Compute(points[last], q)
  {
    hide Metric.Compute;
    var all := front + [last];
    forall k | 0 <= k < |r| ensures m.Compute(points[r[k]], q) <= m.Compute(points[last], q) {
      assert r[k] in multiset(r);
      if r[k] != i {
        var j :| 0 <= j < |front| && front[j] == r[k];
        assert all[j] == r[k] && all[|front|] == last;
      }
    }
  }

  lemma {:induction false} InsertAscending(points: seq<Point>, m: Metric, q: Point, s: seq<nat>, i: nat)
    requires i < |points| && Within(s, |points|) && Ascending(points, m, q, s)
    ensures Ascending(points, m, q, Insert(points, m, q, s, i))
  {
    hide Metric.Compute, Ascending;
    if s == [] {
      assert Ascending(points, m, q, []) && s + [i] == [i];
      AscendingMore(points, m, q, s, i);
    } else {
      var front, last := s[..|s| - 1], s[|s| - 1];
      assert s == front + [last];
      AscendingFront(points, m, q, s);
      if m.Compute(points[last], q) <= m.Compute(points[i], q) {
        assert Insert(points, m, q, s, i) == s + [i];
        AscendingMore(points, m, q, s, i);
      } else {
        var r := Insert(points, m, q, front, i);
        assert Insert(points, m, q, s, i) == r + [last];
        InsertAscending(points, m, q, front, i);
        BelowLast(points, m, q, front, last, i, r);
        AscendingMore(points, m, q, r, last);
      }
    }
  }

  /** std::sort by the distance to q: some ascending arrangement. */
  method SortByDistance(points: seq<Point>, m: Metric, q: Point, results: seq<nat>) returns (s: seq<nat>)
    requires Within(results, |points|)
    ensures Within(s, |points|) && multiset(s) == multiset(results) && |s| == |results| && Ascending(points, m, q, s)
  {
    hide Metric.Compute, Insert;
    s := [];
    for i := 0 to |results|
      invariant Within(s, |points|) && multiset(s) == multiset(results[..i]) && Ascending(points, m, q, s)
    {
      InsertAscending(points, m, q, s, results[i]);
      assert results[..i + 1] == results[..i] + [results[i]];
      s := Insert(points, m, q, s, results[i]);
    }
    assert results[..|results|] == results;
    assert |multiset(s)| == |multiset(results)|;
  }

  lemma SortedShown(points: seq<Point>, m: Metric, q: Point, radius: real, results: seq<nat>, s: seq<nat>)
    requires Shown(points, m, q, radius, results) && multiset(s) == multiset(results)
    requires Within(s, |points|) && Ascending(points, m, q, s)
    ensures Shown(points, m, q, radius, s) && NoDup(s) && Nearest(points, m, q, s)
  {
    hide Metric.Compute, InBall, Queries.Sound, Ascending, Within;
    NoDupMultiset(results, s);
    forall i: nat ensures i in s <==> i in results {
      assert i in multiset(s) <==> i in multiset(results);
    }
  }

  // ----- all combinations of the neighbours

  predicate Acceptable(points: seq<Point>, cut: real, q: Point, dim: nat, t: seq<nat>)
    requires dim == 2 || dim == 3
  {
    |t| == dim + 1 && (forall i :: 0 <= i < |t| ==> t[i] < |points|) && Passes(dim, At(points, t), cut, q)
    && Volume(dim, At(points, t)) != 0.0
  }

  function Accepts(points: seq<Point>, cut: real, q: Point, dim: nat): seq<seq<nat>> -> bool
    requires dim == 2 || dim == 3
  {
    (h: seq<seq<nat>>) => |h| > 0 && Acceptable(points, cut, q, dim, h[|h| - 1])
  }

  lemma AcceptsLast(points: seq<Point>, cut: real, q: Point, dim: nat, views: seq<seq<nat>>, n: nat)
    requires (dim == 2 || dim == 3) && n < |views|
    ensures Accepts(points, cut, q, dim)([] + views[..n + 1]) <==> Good(points, cut, q, dim, views[n])
  {
    hide Passes, Volume;
    var h := [] + views[..n + 1];
    assert h[|h| - 1] == views[n];
  }

  /** The first n combinations have been shown and rejected. */
  lemma Rejected(points: seq<Point>, cut: real, q: Point, dim: nat, results: seq<nat>, views: seq<seq<nat>>, n: nat)
    requires (dim == 2 || dim == 3) && dim + 1 <= |results| && n <= |views| == |Combos(results, dim + 1)|
    requires forall i :: 0 <= i < |views| ==> views[i] == Front(results, dim + 1, i)
    requires forall j :: 0 < j <= n ==> !Accepts(points, cut, q, dim)([] + views[..j])
    ensures forall i :: 0 <= i < n ==> !GoodFront(points, cut, q, dim, results, i)
  {
    hide Good, Combos, Accepts;
    forall i | 0 <= i < n ensures !GoodFront(points, cut, q, dim, results, i) {
      AcceptsLast(points, cut, q, dim, views, i);
      assert !Accepts(points, cut, q, dim)([] + views[..i + 1]);
    }
  }

  /** What the run over all combinations tells, when it has come to view m. */
  lemma RunTells(points: seq<Point>, cut: real, q: Point, dim: nat, results: seq<nat>, views: seq<seq<nat>>, m: nat,
                 stop: bool)
    returns (p: seq<nat>)
    requires Within(results, |points|)
    requires (dim == 2 || dim == 3) && dim + 1 <= |results| && m <= |views|
    requires views == ForEach.Seen(Functors.User, results, 0, dim + 1, |results|)
    requires forall j :: 0 < j < m ==> !Accepts(points, cut, q, dim)([] + views[..j])
    requires if stop then 0 < m && Accepts(points, cut, q, dim)([] + views[..m])
             else m == |views| && (m > 0 ==> !Accepts(points, cut, q, dim)([] + views[..m]))
    ensures m > 0 && forall i :: 0 <= i < m ==> Shaped(points, dim, views[i])
    ensures forall i :: 0 <= i < m ==> (Good(points, cut, q, dim, views[i]) <==> stop && i == m - 1)
    ensures stop ==> FirstGood(points, cut, q, dim, results, p) && Pick(results, p) == views[m - 1]
    ensures !stop ==> forall i :: 0 <= i < |Combos(results, dim + 1)| ==> !GoodFront(points, cut, q, dim, results, i)
    ensures !stop ==> views[m - 1] == Farthest(results, dim)
  {
    hide Good, Combos, ForEach.Seen, Accepts, GoodFront, FirstGood, Shaped, Farthest;
    SeenFronts(results, dim + 1);
    ViewsFit(points, dim, results, views);
    p := [];
    forall i: nat | i < m ensures Good(points, cut, q, dim, views[i]) <==> stop && i == m - 1 {
      AcceptsLast(points, cut, q, dim, views, i);
    }
    Rejected(points, cut, q, dim, results, views, if stop then m - 1 else m);
    if stop {
      assert GoodFront(points, cut, q, dim, results, m - 1) by { IsGoodFront(points, cut, q, dim, results, m - 1); }
      p := FirstAccepted(points, cut, q, dim, results, m - 1);
    }
  }

  lemma IsGoodFront(points: seq<Point>, cut: real, q: Point, dim: nat, s: seq<nat>, i: nat)
    requires dim + 1 <= |s| && i < |Combos(s, dim + 1)| && Good(points, cut, q, dim, Front(s, dim + 1, i))
    ensures GoodFront(points, cut, q, dim, s, i)
  {
    hide Good, Front, Combos;
  }

  /** The elements that come last: the farthest neighbours. */
  function Farthest(s: seq<nat>, dim: nat): (t: seq<nat>)
    requires dim < |s|
    ensures |t| == dim + 1
  {
    s[|s| - dim - 1..]
  }

  /** for_each_combination with a callback that accepts by what it is shown. */
  method ShowUntil(accepts: seq<seq<nat>> -> bool, k: nat, results: seq<nat>)
    returns (stop: bool, calls: seq<seq<nat>>, ghost m: nat)
    requires k <= |results|
    ensures var views := ForEach.Seen(Functors.User, results, 0, k, |results|);
      && m <= |views| && calls == views[..m] && (forall j :: 0 < j < m ==> !accepts([] + views[..j]))
      && (if stop then 0 < m && accepts([] + views[..m])
          else m == |views| && (m > 0 ==> !accepts([] + views[..m])))
  {
    hide ForEach.Seen;
    var a := new nat[|results|](i requires 0 <= i < |results| => results[i]);
    assert a[..] == results;
    var run := new Enumerations.Enumeration<nat>(a, 0, k, accepts);
    stop := run.ForEachCombination(Functors.User, |results|);
    m :| run.OfferedUpTo([], ForEach.Seen(Functors.User, results, 0, k, |results|), m, stop, run.seen);
    calls := run.seen;
  }

  /** for_each_combination over the sorted neighbours: the tuples the callback is
      called with, until the first that it accepts. */
  method RunCombinations(points: seq<Point>, cut: real, q: Point, dim: nat, results: seq<nat>)
    returns (stop: bool, calls: seq<seq<nat>>, ghost p: seq<nat>)
    requires (dim == 2 || dim == 3) && Within(results, |points|) && dim + 1 <= |results|
    ensures calls != [] && forall i :: 0 <= i < |calls| ==> Shaped(points, dim, calls[i])
    ensures forall i :: 0 <= i < |calls| ==> (Good(points, cut, q, dim, calls[i]) <==> stop && i == |calls| - 1)
    ensures stop ==> FirstGood(points, cut, q, dim, results, p) && Pick(results, p) == calls[|calls| - 1]
    ensures !stop ==> forall i :: 0 <= i < |Combos(results, dim + 1)| ==> !GoodFront(points, cut, q, dim, results, i)
    ensures !stop ==> calls[|calls| - 1] == Farthest(results, dim)
  {
    hide Good, Combos, ForEach.Seen, FirstGood, GoodFront, Accepts, Increasing, Within, Shaped, Farthest, Pick;
    ghost var m;
    stop, calls, m := ShowUntil(Accepts(points, cut, q, dim), dim + 1, results);
    ghost var views := ForEach.Seen(Functors.User, results, 0, dim + 1, |results|);
    p := RunTells(points, cut, q, dim, results, views, m, stop);
    forall i | 0 <= i < |calls|
      ensures Shaped(points, dim, calls[i]) && (Good(points, cut, q, dim, calls[i]) <==> stop && i == |calls| - 1)
    {
      assert calls[i] == views[i];
    }
  }

  /** The run with a fresh functor. Called with the tuples of the run in their
      order, the functor answers as the run was answered, and is left in its final
      state. */
  method TryCombinations(points: seq<Point>, field: seq<Point>, cut: real, q: Point, dim: nat, results: seq<nat>)
    returns (valid: bool, e: Option<Point>, ghost p: seq<nat>)
    requires (dim == 2 || dim == 3) && |points| == |field| && Within(results, |points|) && NoDup(results)
    requires dim + 1 <= |results|
    ensures valid && e.Some? ==>
      FirstGood(points, cut, q, dim, results, p) && e.value == ValueOf(points, field, cut, q, dim, Pick(results, p))
    ensures !(valid && e.Some?) ==> NoneOf(points, cut, q, dim, results)
    ensures valid && e.None? <==>
      NoneOf(points, cut, q, dim, results) && FlatPass(points, cut, q, dim, Farthest(results, dim))
  {
    hide Good, Combos, ValueOf, FirstGood, GoodFront, Within, NoneOf, FlatPass, Shaped, Farthest, NoDup;
    var stop, calls;
    stop, calls, p := RunCombinations(points, cut, q, dim, results);
    var functor := new Combination(points, field, q, cut);
    var answers := CallEach(functor, calls, dim);
    valid, e := functor.valid, functor.result;
    ghost var last := calls[|calls| - 1];
    NotBoth(points, cut, q, dim, last);
    if stop {
      FirstIsGood(points, cut, q, dim, results, p);
      SomeGood(points, cut, q, dim, results, p);
    } else {
      NoneShown(points, cut, q, dim, results);
    }
  }

  /** The calls of a run, in their order. */
  method CallEach(functor: Combination, calls: seq<seq<nat>>, dim: nat) returns (answers: seq<bool>)
    requires functor.Valid()
    requires forall i :: 0 <= i < |calls| ==> Shaped(functor.grid, dim, calls[i])
    modifies functor, functor.gridElements, functor.fieldElements
    ensures |answers| == |calls|
    ensures forall i ::
      0 <= i < |calls| ==> answers[i] == Good(functor.grid, functor.cut, functor.reference, dim, calls[i])
    ensures calls == [] ==> functor.valid == old(functor.valid) && functor.result == old(functor.result)
    ensures calls != [] ==> Left(functor, dim, calls[|calls| - 1])
  {
    answers := [];
    for i := 0 to |calls|
      invariant |answers| == i
      invariant forall j ::
        0 <= j < i ==> answers[j] == Good(functor.grid, functor.cut, functor.reference, dim, calls[j])
      invariant i == 0 ==> functor.valid == old(functor.valid) && functor.result == old(functor.result)
      invariant i > 0 ==> Left(functor, dim, calls[i - 1])
    {
      hide Good, FlatPass, ValueOf;
      var answer := functor.Call(calls[i]);
      answers := answers + [answer];
    }
  }

  /** The state in which a call with the tuple leaves the functor. */
  ghost predicate Left(functor: Combination, dim: nat, t: seq<nat>)
    requires functor.Valid()
    reads functor
  {
    var good := Good(functor.grid, functor.cut, functor.reference, dim, t);
    var flat := FlatPass(functor.grid, functor.cut, functor.reference, dim, t);
    && (functor.valid <==> good || flat)
    && (good ==> functor.result == Some(ValueOf(functor.grid, functor.field, functor.cut, functor.reference, dim, t)))
    && (flat ==> functor.result == None)
  }

  lemma NotBoth(points: seq<Point>, cut: real, q: Point, dim: nat, t: seq<nat>)
    ensures !(Good(points, cut, q, dim, t) && FlatPass(points, cut, q, dim, t))
  {
    hide Passes, Volume;
  }

  lemma SomeGood(points: seq<Point>, cut: real, q: Point, dim: nat, s: seq<nat>, p: seq<nat>)
    requires NoDup(s) && FirstGood(points, cut, q, dim, s, p)
    ensures !NoneOf(points, cut, q, dim, s)
  {
    hide Good;
    PickDistinct(s, p);
    assert Good(points, cut, q, dim, Pick(s, p));
  }

  lemma NoneShown(points: seq<Point>, cut: real, q: Point, dim: nat, s: seq<nat>)
    requires dim + 1 <= |s| && Within(s, |points|) && NoDup(s)
    requires forall i :: 0 <= i < |Combos(s, dim + 1)| ==> !GoodFront(points, cut, q, dim, s, i)
    ensures NoneOf(points, cut, q, dim, s)
  {
    hide Good, Combos, GoodFront;
    forall t: seq<nat> | NoDup(t) && (forall i :: 0 <= i < |t| ==> t[i] in s) ensures !Good(points, cut, q, dim, t) {
      if Good(points, cut, q, dim, t) {
        GoodShaped(points, cut, q, dim, t);
        SubPermutation(t, s);
        NoneGood(points, cut, q, dim, s, t);
      }
    }
  }

  /** Three neighbours on a line, without a cut: nothing is accepted, but the run
      leaves the functor valid. */
  lemma FlatRun(q: Point) returns (points: seq<Point>)
    ensures points == [Point(0.0, 0.0, 0.0), Point(0.0, 1.0, 0.0), Point(0.0, 2.0, 0.0)]
    ensures NoneOf(points, 0.0, q, 2, [0, 1, 2]) && FlatPass(points, 0.0, q, 2, Farthest([0, 1, 2], 2))
  {
    points := FlatInput(q);
    hide Good, FlatPass;
    var s: seq<nat> := [0, 1, 2];
    CombosTrivial(s, 3);
    assert Front(s, 3, 0) == s == Farthest(s, 2);
    NotBoth(points, 0.0, q, 2, s);
    NoneShown(points, 0.0, q, 2, s);
  }

  lemma FewHaveNone(points: seq<Point>, cut: real, q: Point, dim: nat, s: seq<nat>)
    requires |s| < dim + 1
    ensures NoneOf(points, cut, q, dim, s)
  {
    hide Good;
    forall t: seq<nat> | NoDup(t) && (forall i :: 0 <= i < |t| ==> t[i] in s) ensures !Good(points, cut, q, dim, t) {
      if Good(points, cut, q, dim, t) {
        GoodShaped(points, cut, q, dim, t);
        SubPermutation(t, s);
      }
    }
  }

  lemma GoodShaped(points: seq<Point>, cut: real, q: Point, dim: nat, t: seq<nat>)
    requires Good(points, cut, q, dim, t)
    ensures Shaped(points, dim, t)
  {
    hide Passes, Volume;
  }

  /** The callback sees tuples of dim + 1 points. */
  lemma ViewsFit(points: seq<Point>, dim: nat, results: seq<nat>, views: seq<seq<nat>>)
    requires Within(results, |points|) && dim + 1 <= |results|
    requires views == ForEach.Seen(Functors.User, results, 0, dim + 1, |results|)
    requires dim == 2 || dim == 3
    ensures |views| == |Combos(results, dim + 1)|
    ensures forall i :: 0 <= i < |views| ==> Shaped(points, dim, views[i])
    ensures views != [] && views[|views| - 1] == Farthest(results, dim)
  {
    hide ForEach.Seen, Combos;
    SeenFronts(results, dim + 1);
    LastFront(results, dim + 1);
    forall i | 0 <= i < |views| ensures Shaped(points, dim, views[i]) {
      FrontWithin(results, dim + 1, i, |points|);
    }
  }

  lemma FrontWithin(s: seq<nat>, k: nat, i: nat, n: nat)
    requires k <= |s| && i < |Combos(s, k)| && Within(s, n)
    ensures Within(Front(s, k, i), n)
  {
    hide Combos;
    Choices.CombosKeep(s, k, i);
    WithinKept(s, Combos(s, k)[i], n);
  }

  lemma FirstIsGood(points: seq<Point>, cut: real, q: Point, dim: nat, s: seq<nat>, p: seq<nat>)
    requires FirstGood(points, cut, q, dim, s, p)
    ensures Within(p, |s|) && Good(points, cut, q, dim, Pick(s, p)) && Within(Pick(s, p), |points|)
  {
    hide Passes, Volume;
  }

  lemma SubPermutation(t: seq<nat>, s: seq<nat>)
    requires NoDup(t) && forall i :: 0 <= i < |t| ==> t[i] in s
    ensures multiset(t) <= multiset(s) && |t| <= |s|
  {
    forall x ensures multiset(t)[x] <= multiset(s)[x] {
      CountOnce(t, x);
      if x in multiset(t) {
        assert x in t;
      }
    }
    assert multiset(s) == multiset(t) + (multiset(s) - multiset(t));
    assert |multiset(s)| == |multiset(t)| + |multiset(s) - multiset(t)|;
  }

  lemma PickDistinct(s: seq<nat>, p: seq<nat>)
    requires NoDup(s) && Within(p, |s|) && Increasing(p)
    ensures NoDup(Pick(s, p)) && forall i :: 0 <= i < |p| ==> Pick(s, p)[i] in s
  {}

  // ----- growing the radius

  /** The radius after n steps. */
  function RadiusAt(initial: real, step: real, n: nat): real {
    if n == 0 then initial else RadiusAt(initial, step, n - 1) + step
  }

  lemma {:induction false} RadiusGrows(initial: real, step: real, i: nat, n: nat)
    requires step > 0.0 && i <= n
    ensures RadiusAt(initial, step, i) <= RadiusAt(initial, step, n)
  {
    if i == n {
    } else {
      RadiusGrows(initial, step, i, n - 1);
    }
  }

  lemma {:induction false} RadiusLinear(initial: real, step: real, n: nat)
    ensures RadiusAt(initial, step, n) == initial + Mul(step, n as real)
  {
    if n == 0 {
      Unit(step);
    } else {
      RadiusLinear(initial, step, n - 1);
      Unit(step);
      hide Mul;
      Gather(step, (n - 1) as real, 1.0);
    }
  }

  /** Every radius is exceeded after finitely many steps. */
  lemma RadiusExceeds(initial: real, step: real, most: real) returns (n: nat)
    requires step > 0.0
    ensures RadiusAt(initial, step, n) > most
  {
    var gap := if most > initial then most - initial else 0.0;
    var q := gap / step;
    Octants.Quotient(gap, step);
    n := q.Floor + 1;
    Beyond(q, n as real, step);
    RadiusLinear(initial, step, n);
  }

  lemma Beyond(q: real, n: real, step: real)
    requires q < n && step > 0.0
    ensures q * step < Mul(step, n)
  {
    assert step * (n - q) > 0.0;
  }

  lemma RadiusAbove(initial: real, step: real, n: nat)
    requires step > 0.0
    ensures RadiusAt(initial, step, n) > initial <==> n > 0
  {
    if n > 0 {
      RadiusGrows(initial, step, 0, n - 1);
    }
  }

  lemma RadiusBounded(initial: real, step: real, last: nat, n: nat, most: real)
    requires step > 0.0 && RadiusAt(initial, step, last) > most && RadiusAt(initial, step, n) <= most
    ensures n < last
  {
    if n >= last {
      RadiusGrows(initial, step, last, n);
    }
  }

  // ----- the search

  datatype Options = Options(interpolate: bool, allowFailure: bool, allowDecay: bool, initialRadius: real,
                             maxRadius: real, radiusStep: real, volumeCut: real)
  {
    function Radius(n: nat): real {
      RadiusAt(initialRadius, radiusStep, n)
    }

    /** A radius behind the first has shown more than 100 neighbours. */
    ghost predicate Decayed(lists: seq<seq<nat>>, n: nat)
      requires n <= |lists|
    {
      allowDecay && exists j :: 0 < j < n && |lists[j]| > 100
    }

    /** Flat elements never pass, and the query misses no point. */
    predicate Strict() {
      volumeCut > 0.0 && !allowDecay && initialRadius >= 0.0
    }

    /** The volume cut after n radii. */
    ghost function Cut(lists: seq<seq<nat>>, n: nat): real
      requires n <= |lists|
    {
      if Decayed(lists, n) then 0.0 else volumeCut
    }
  }

  datatype SearchResult = Found(value: Point) | NotFinite | Failed

  /** The lists of neighbours, one for each radius tried. */
  ghost predicate Lists(points: seq<Point>, m: Metric, dim: nat, o: Options, q: Point, lists: seq<seq<nat>>) {
    forall j: nat :: j < |lists| ==>
      Shown(points, m, q, o.Radius(j), lists[j]) && (dim < |lists[j]| ==> Nearest(points, m, q, lists[j]))
  }

  /** The neighbours make no good element, and the search goes on: it does not when
      there are enough of them and the farthest make a flat one that passes. */
  ghost predicate Quiet(points: seq<Point>, cut: real, q: Point, dim: nat, s: seq<nat>) {
    NoneOf(points, cut, q, dim, s) && (dim < |s| ==> !FlatPass(points, cut, q, dim, Farthest(s, dim)))
  }

  ghost predicate QuietUpTo(points: seq<Point>, dim: nat, o: Options, q: Point, lists: seq<seq<nat>>, n: nat)
    requires n <= |lists|
  {
    forall j: nat :: j < n ==> Quiet(points, o.Cut(lists, j + 1), q, dim, lists[j])
  }

  /** How the neighbours of the last radius end the search: with the value of their
      lexicographically first good tuple, at the positions p; or without a good one,
      but with a flat one at the end. */
  ghost predicate EndsWith(points: seq<Point>, field: seq<Point>, cut: real, q: Point, dim: nat, s: seq<nat>,
                           p: seq<nat>, r: SearchResult)
    requires |points| == |field|
  {
    match r
    case Found(value) =>
      FirstGood(points, cut, q, dim, s, p) && value == ValueOf(points, field, cut, q, dim, Pick(s, p))
    case NotFinite =>
      NoneOf(points, cut, q, dim, s) && dim < |s| && FlatPass(points, cut, q, dim, Farthest(s, dim))
    case Failed => false
  }

  /** How the whole search ends: at the first radius that is not quiet, or when all
      of them are. */
  ghost predicate Ended(points: seq<Point>, field: seq<Point>, m: Metric, dim: nat, o: Options, q: Point,
                        lists: seq<seq<nat>>, p: seq<nat>, r: SearchResult)
    requires |points| == |field|
  {
    var n: nat := if r.Failed? || lists == [] then |lists| else |lists| - 1;
    && Lists(points, m, dim, o, q, lists) && QuietUpTo(points, dim, o, q, lists, n)
    && (forall j: nat :: j < |lists| ==> o.Radius(j) <= o.maxRadius)
    && if r.Failed? then o.Radius(n) > o.maxRadius
       else n < |lists| && EndsWith(points, field, o.Cut(lists, n + 1), q, dim, lists[n], p, r)
  }

  /** The loop after the radii of these lists. */
  ghost predicate Searching(points: seq<Point>, m: Metric, dim: nat, o: Options, q: Point, lists: seq<seq<nat>>) {
    && Lists(points, m, dim, o, q, lists) && QuietUpTo(points, dim, o, q, lists, |lists|)
    && (forall j: nat :: j < |lists| ==> o.Radius(j) <= o.maxRadius)
  }

  lemma SearchStarts(points: seq<Point>, m: Metric, dim: nat, o: Options, q: Point)
    ensures Searching(points, m, dim, o, q, []) && !o.Decayed([], 0) && o.Radius(0) == o.initialRadius
  {}

  lemma NextRadius(o: Options, n: nat, last: nat)
    requires o.radiusStep > 0.0 && o.Radius(n) <= o.maxRadius
    requires RadiusAt(o.initialRadius, o.radiusStep, last) > o.maxRadius
    ensures n < last && o.Radius(n + 1) == o.Radius(n) + o.radiusStep
    ensures o.Radius(n) > o.initialRadius <==> n > 0
  {
    RadiusBounded(o.initialRadius, o.radiusStep, last, n, o.maxRadius);
    RadiusAbove(o.initialRadius, o.radiusStep, n);
  }

  lemma ResultsShown(points: seq<Point>, m: Metric, q: Point, radius: real, order: seq<nat>, results: seq<nat>)
    requires Octants.Rearranges(order, Octrees.Indices(|points|)) && Within(order, |points|) && NoDup(results)
    requires forall i: nat :: i in results ==> i in order && m.Compute(q, points[i]) < m.Sqr(radius)
    requires Queries.Sound(m, radius) ==>
      forall i: nat :: i in results <==> i in order && m.Compute(q, points[i]) < m.Sqr(radius)
    ensures Shown(points, m, q, radius, results) && Within(results, |points|)
  {
    hide Metric.Compute, Metric.Sqr, Queries.Sound;
    forall i: nat ensures i in order <==> i < |points| {
      assert i in Octrees.Indices(|points|) <==> i < |points| by {
        if i < |points| { assert Octrees.Indices(|points|)[i] == i; }
      }
    }
    forall k | 0 <= k < |results| ensures results[k] < |points| {
      assert results[k] in results;
    }
  }

  lemma DecayStep(o: Options, lists: seq<seq<nat>>, s: seq<nat>)
    ensures o.Decayed(lists + [s], |lists| + 1) <==>
      o.Decayed(lists, |lists|) || (o.allowDecay && |lists| > 0 && |s| > 100)
    ensures forall n: nat :: n <= |lists| ==> o.Cut(lists + [s], n) == o.Cut(lists, n)
  {
    var more := lists + [s];
    forall n: nat | n <= |lists| ensures o.Decayed(more, n) <==> o.Decayed(lists, n) {
      if o.Decayed(lists, n) {
        var j :| 0 < j < n && |lists[j]| > 100;
        assert more[j] == lists[j];
      }
    }
    if o.Decayed(lists, |lists|) {
      var j :| 0 < j < |lists| && |lists[j]| > 100;
      assert more[j] == lists[j];
    }
    assert more[|lists|] == s;
  }

  lemma ListsMore(points: seq<Point>, m: Metric, dim: nat, o: Options, q: Point, lists: seq<seq<nat>>, s: seq<nat>)
    requires Lists(points, m, dim, o, q, lists) && Shown(points, m, q, o.Radius(|lists|), s)
    requires dim < |s| ==> Nearest(points, m, q, s)
    ensures Lists(points, m, dim, o, q, lists + [s])
  {
    hide Shown, Nearest, Options.Radius;
  }

  lemma QuietMore(points: seq<Point>, dim: nat, o: Options, q: Point, lists: seq<seq<nat>>, s: seq<nat>)
    requires QuietUpTo(points, dim, o, q, lists, |lists|)
    ensures QuietUpTo(points, dim, o, q, lists + [s], |lists|)
    ensures Quiet(points, o.Cut(lists + [s], |lists| + 1), q, dim, s) ==>
      QuietUpTo(points, dim, o, q, lists + [s], |lists| + 1)
  {
    hide Quiet, Options.Cut;
    DecayStep(o, lists, s);
  }

  lemma SearchMore(points: seq<Point>, m: Metric, dim: nat, o: Options, q: Point, lists: seq<seq<nat>>, s: seq<nat>)
    requires Searching(points, m, dim, o, q, lists) && Shown(points, m, q, o.Radius(|lists|), s)
    requires dim < |s| ==> Nearest(points, m, q, s)
    requires o.Radius(|lists|) <= o.maxRadius && Quiet(points, o.Cut(lists + [s], |lists| + 1), q, dim, s)
    ensures Searching(points, m, dim, o, q, lists + [s])
  {
    hide Shown, Nearest, Options.Radius, Options.Cut, Quiet, Lists, QuietUpTo;
    ListsMore(points, m, dim, o, q, lists, s);
    QuietMore(points, dim, o, q, lists, s);
  }

  /** A radius with too few neighbours for an element. */
  lemma TooFew(points: seq<Point>, m: Metric, dim: nat, o: Options, q: Point, lists: seq<seq<nat>>, s: seq<nat>)
    requires Searching(points, m, dim, o, q, lists) && Shown(points, m, q, o.Radius(|lists|), s)
    requires o.Radius(|lists|) <= o.maxRadius && |s| < dim + 1 <= 4
    ensures Searching(points, m, dim, o, q, lists + [s])
    ensures o.Decayed(lists + [s], |lists| + 1) == o.Decayed(lists, |lists|)
  {
    hide Shown, Nearest, Options.Radius, Options.Cut, Searching, NoneOf, Options.Decayed;
    DecayStep(o, lists, s);
    FewHaveNone(points, o.Cut(lists + [s], |lists| + 1), q, dim, s);
    SearchMore(points, m, dim, o, q, lists, s);
  }

  lemma CutNow(o: Options, lists: seq<seq<nat>>, s: seq<nat>, zero: bool)
    requires zero == (o.Decayed(lists, |lists|) || (o.allowDecay && |lists| > 0 && |s| > 100))
    ensures o.Decayed(lists + [s], |lists| + 1) == zero
    ensures o.Cut(lists + [s], |lists| + 1) == if zero then 0.0 else o.volumeCut
  {
    hide Options.Decayed;
    DecayStep(o, lists, s);
  }

  /** The combinations of the neighbours of a radius have been tried in vain. */
  lemma TriedAll(points: seq<Point>, m: Metric, dim: nat, o: Options, q: Point, lists: seq<seq<nat>>, s: seq<nat>,
                 cut: real)
    requires Searching(points, m, dim, o, q, lists) && Shown(points, m, q, o.Radius(|lists|), s)
    requires Nearest(points, m, q, s) && o.Radius(|lists|) <= o.maxRadius && dim < |s|
    requires cut == o.Cut(lists + [s], |lists| + 1)
    requires NoneOf(points, cut, q, dim, s) && !FlatPass(points, cut, q, dim, Farthest(s, dim))
    ensures Searching(points, m, dim, o, q, lists + [s])
  {
    hide Shown, Nearest, Options.Radius, Options.Cut, Searching, NoneOf, FlatPass;
    SearchMore(points, m, dim, o, q, lists, s);
  }

  lemma SearchEnds(points: seq<Point>, field: seq<Point>, m: Metric, dim: nat, o: Options, q: Point,
                   lists: seq<seq<nat>>, s: seq<nat>, p: seq<nat>, r: SearchResult)
    requires Searching(points, m, dim, o, q, lists) && Shown(points, m, q, o.Radius(|lists|), s)
    requires Nearest(points, m, q, s) && o.Radius(|lists|) <= o.maxRadius && |points| == |field|
    requires EndsWith(points, field, o.Cut(lists + [s], |lists| + 1), q, dim, s, p, r)
    ensures Ended(points, field, m, dim, o, q, lists + [s], p, r)
  {
    hide Shown, Nearest, Options.Radius, Options.Cut, Quiet, Lists, QuietUpTo, EndsWith;
    ListsMore(points, m, dim, o, q, lists, s);
    QuietMore(points, dim, o, q, lists, s);
    FailedNever(points, field, o.Cut(lists + [s], |lists| + 1), q, dim, s, p, r);
  }

  lemma ResultIs(points: seq<Point>, field: seq<Point>, cut: real, q: Point, dim: nat, s: seq<nat>, p: seq<nat>,
                 r: SearchResult)
    requires |points| == |field| && dim < |s| && !r.Failed?
    requires r.Found? ==>
      FirstGood(points, cut, q, dim, s, p) && r.value == ValueOf(points, field, cut, q, dim, Pick(s, p))
    requires r.NotFinite? ==> NoneOf(points, cut, q, dim, s) && FlatPass(points, cut, q, dim, Farthest(s, dim))
    ensures EndsWith(points, field, cut, q, dim, s, p, r)
  {
    hide FirstGood, NoneOf, FlatPass, ValueOf;
  }

  lemma FailedNever(points: seq<Point>, field: seq<Point>, cut: real, q: Point, dim: nat, s: seq<nat>, p: seq<nat>,
                    r: SearchResult)
    requires |points| == |field| && EndsWith(points, field, cut, q, dim, s, p, r)
    ensures !r.Failed?
  {}

  lemma SearchFails(points: seq<Point>, field: seq<Point>, m: Metric, dim: nat, o: Options, q: Point,
                    lists: seq<seq<nat>>, p: seq<nat>)
    requires Searching(points, m, dim, o, q, lists) && o.Radius(|lists|) > o.maxRadius && |points| == |field|
    ensures Ended(points, field, m, dim, o, q, lists, p, Failed)
  {
    hide Options.Radius, Lists, QuietUpTo;
  }

  /** The search loop around q. */
  method Search(octree: Octrees.Octree, points: seq<Point>, field: seq<Point>, m: Metric, dim: nat, q: Point,
                o: Options)
    returns (r: SearchResult, ghost lists: seq<seq<nat>>, ghost p: seq<nat>)
    requires octree.Valid() && octree.data == points && Octants.Rearranges(octree.order, Octrees.Indices(|points|))
    requires |points| == |field| && (dim == 2 || dim == 3) && o.radiusStep > 0.0
    ensures Ended(points, field, m, dim, o, q, lists, p, r)
  {
    hide *;
    var radius := o.initialRadius;
    var prevNeighbours := 0;
    var allowZeroVolume := false;
    lists, p := [], [];
    SearchStarts(points, m, dim, o, q);
    ghost var last := RadiusExceeds(o.initialRadius, o.radiusStep, o.maxRadius);
    while radius <= o.maxRadius
      invariant radius == o.Radius(|lists|) && |lists| <= last && prevNeighbours == 0
      invariant allowZeroVolume == o.Decayed(lists, |lists|)
      invariant Searching(points, m, dim, o, q, lists)
      decreases last - |lists|
    {
      NextRadius(o, |lists|, last);
      var results := octree.RadiusNeighbors(m, q, radius);
      ResultsShown(points, m, q, radius, octree.order, results);
      if |results| <= prevNeighbours || results == [] {
        prevNeighbours := |results|;
        TooFew(points, m, dim, o, q, lists, results);
        lists := lists + [results];
        radius := radius + o.radiusStep;
        continue;
      }
      if |results| < dim + 1 {
        TooFew(points, m, dim, o, q, lists, results);
        lists := lists + [results];
        radius := radius + o.radiusStep;
        continue;
      }
      if o.allowDecay && radius > o.initialRadius && |results| > 100 {
        allowZeroVolume := true;
      }
      var cut := if allowZeroVolume then 0.0 else o.volumeCut;
      var sorted := SortByDistance(points, m, q, results);
      SortedShown(points, m, q, radius, results, sorted);
      CutNow(o, lists, sorted, allowZeroVolume);
      var valid, e, positions := TryCombinations(points, field, cut, q, dim, sorted);
      if valid {
        r := if e.Some? then Found(e.value) else NotFinite;
        ResultIs(points, field, cut, q, dim, sorted, positions, r);
        SearchEnds(points, field, m, dim, o, q, lists, sorted, positions, r);
        lists, p := lists + [sorted], positions;
        return;
      }
      TriedAll(points, m, dim, o, q, lists, sorted, cut);
      lists := lists + [sorted];
      radius := radius + o.radiusStep;
    }
    r := Failed;
    SearchFails(points, field, m, dim, o, q, lists, p);
  }

  // ----- in terms of balls

  /** A list that shows the whole ball has a good tuple exactly if the ball does. */
  lemma BallDecides(points: seq<Point>, m: Metric, cut: real, q: Point, dim: nat, radius: real, s: seq<nat>)
    requires Shown(points, m, q, radius, s) && Queries.Sound(m, radius)
    ensures NoneOf(points, cut, q, dim, s) <==> !Holds(points, m, cut, q, dim, radius)
  {
    hide Good, InBall, Queries.Sound;
    if !NoneOf(points, cut, q, dim, s) {
      var t: seq<nat> :| NoDup(t) && (forall i :: 0 <= i < |t| ==> t[i] in s) && Good(points, cut, q, dim, t);
      assert forall i :: 0 <= i < |t| ==> InBall(points, m, q, radius, t[i]);
    }
    if Holds(points, m, cut, q, dim, radius) {
      var t: seq<nat> :| NoDup(t) && (forall i :: 0 <= i < |t| ==> InBall(points, m, q, radius, t[i])) &&
          Good(points, cut, q, dim, t);
      assert forall i :: 0 <= i < |t| ==> t[i] in s;
    }
  }

  /** A larger ball and a smaller cut keep what `Holds` asks for. */
  lemma HoldsGrows(points: seq<Point>, m: Metric, cut: real, lower: real, q: Point, dim: nat, r: real, s: real)
    requires 0.0 <= r <= s && (lower <= cut || lower <= 0.0) && Holds(points, m, cut, q, dim, r)
    ensures Holds(points, m, lower, q, dim, s)
  {
    hide Good, Metric.Compute, Metric.Sqr;
    var t: seq<nat> :| NoDup(t) && (forall i :: 0 <= i < |t| ==> InBall(points, m, q, r, t[i])) &&
        Good(points, cut, q, dim, t);
    SqrMonotone(m, r, s);
    assert forall i :: 0 <= i < |t| ==> InBall(points, m, q, s, t[i]);
    GoodBelow(points, cut, lower, q, dim, t);
  }

  /** The lists grow with the radius. */
  lemma ListsGrow(points: seq<Point>, m: Metric, dim: nat, o: Options, q: Point, lists: seq<seq<nat>>, i: nat, j: nat)
    requires Lists(points, m, dim, o, q, lists) && o.radiusStep > 0.0 && o.initialRadius >= 0.0 && i <= j < |lists|
    ensures |lists[i]| <= |lists[j]|
  {
    hide Metric.Compute, Metric.Sqr, Nearest;
    var r, s := o.Radius(i), o.Radius(j);
    RadiusGrows(o.initialRadius, o.radiusStep, 0, i);
    RadiusGrows(o.initialRadius, o.radiusStep, i, j);
    SqrMonotone(m, r, s);
    assert Shown(points, m, q, r, lists[i]) && Shown(points, m, q, s, lists[j]);
    forall k | 0 <= k < |lists[i]| ensures lists[i][k] in lists[j] {
      assert InBall(points, m, q, r, lists[i][k]);
      assert InBall(points, m, q, s, lists[i][k]);
    }
    SubPermutation(lists[i], lists[j]);
  }

  /** The flag that allows flat elements is kept from one radius to the next, but
      has no memory: it says that the present radius shows more than 100 points. */
  lemma DecayLasts(points: seq<Point>, m: Metric, dim: nat, o: Options, q: Point, lists: seq<seq<nat>>, n: nat)
    requires Lists(points, m, dim, o, q, lists) && o.radiusStep > 0.0 && o.initialRadius >= 0.0 && n < |lists|
    ensures o.Decayed(lists, n + 1) <==> o.allowDecay && n > 0 && |lists[n]| > 100
    ensures o.Cut(lists, n + 1) == if o.allowDecay && n > 0 && |lists[n]| > 100 then 0.0 else o.volumeCut
  {
    hide Lists;
    if o.Decayed(lists, n + 1) {
      var j :| 0 < j < n + 1 && |lists[j]| > 100;
      ListsGrow(points, m, dim, o, q, lists, j, n);
    }
  }

  /** A search ends at the smallest radius whose ball holds a good tuple under the
      cut of that radius; if it ends without a value, no ball before held one. */
  lemma FoundHolds(points: seq<Point>, field: seq<Point>, m: Metric, dim: nat, o: Options, q: Point,
                   lists: seq<seq<nat>>, p: seq<nat>, r: SearchResult, j: nat)
    requires |points| == |field| && o.radiusStep > 0.0 && o.initialRadius >= 0.0 && j < |lists|
    requires Ended(points, field, m, dim, o, q, lists, p, r)
    ensures Holds(points, m, o.Cut(lists, j + 1), q, dim, o.Radius(j)) <==> r.Found? && j == |lists| - 1
  {
    hide FirstGood, FlatPass, Shown, Nearest, Options.Cut, Holds, NoneOf, Queries.Sound, ValueOf;
    RadiusGrows(o.initialRadius, o.radiusStep, 0, j);
    NeverNegative(m, o.Radius(j));
    BallDecides(points, m, o.Cut(lists, j + 1), q, dim, o.Radius(j), lists[j]);
    if r.Found? && j == |lists| - 1 {
      ShownApart(points, m, q, o.Radius(j), lists[j]);
      SomeGood(points, o.Cut(lists, j + 1), q, dim, lists[j], p);
    }
  }

  lemma NeverNegative(m: Metric, radius: real)
    requires radius >= 0.0
    ensures Queries.Sound(m, radius)
  {}

  lemma ShownApart(points: seq<Point>, m: Metric, q: Point, radius: real, s: seq<nat>)
    requires Shown(points, m, q, radius, s)
    ensures NoDup(s)
  {}

  /** A result that is not finite needs options that disable the volume cut. */
  lemma FiniteWithCut(points: seq<Point>, field: seq<Point>, m: Metric, dim: nat, o: Options, q: Point,
                      lists: seq<seq<nat>>, p: seq<nat>)
    requires |points| == |field| && Ended(points, field, m, dim, o, q, lists, p, NotFinite)
    ensures o.volumeCut <= 0.0 || o.allowDecay
  {
    hide Lists, QuietUpTo, NoneOf, FlatPass;
    var n: nat := |lists| - 1;
    var t := Farthest(lists[n], dim);
    FlatShaped(points, o.Cut(lists, n + 1), q, dim, t);
    FlatPassIff(points, o.Cut(lists, n + 1), q, dim, t);
  }

  lemma FlatShaped(points: seq<Point>, cut: real, q: Point, dim: nat, t: seq<nat>)
    requires FlatPass(points, cut, q, dim, t)
    ensures Shaped(points, dim, t)
  {
    hide Passes, Volume;
  }

  /** No ball of a radius that is tried holds a good tuple. */
  ghost predicate NoRadiusHolds(points: seq<Point>, m: Metric, dim: nat, o: Options, q: Point) {
    forall j: nat :: o.Radius(j) <= o.maxRadius ==> !Holds(points, m, o.volumeCut, q, dim, o.Radius(j))
  }

  /** With a cut and without decay, the search fails if and only if no ball tried
      holds a good tuple, and finds a value otherwise. */
  lemma FailsIff(points: seq<Point>, field: seq<Point>, m: Metric, dim: nat, o: Options, q: Point,
                 lists: seq<seq<nat>>, p: seq<nat>, r: SearchResult)
    requires |points| == |field| && Ended(points, field, m, dim, o, q, lists, p, r)
    requires o.radiusStep > 0.0 && o.Strict()
    ensures r.Failed? <==> NoRadiusHolds(points, m, dim, o, q)
    ensures r.Found? <==> !NoRadiusHolds(points, m, dim, o, q)
  {
    hide Lists, QuietUpTo, EndsWith, Holds;
    forall j: nat | j < |lists|
      ensures Holds(points, m, o.volumeCut, q, dim, o.Radius(j)) <==> r.Found? && j == |lists| - 1
    {
      FoundHolds(points, field, m, dim, o, q, lists, p, r, j);
      assert o.Cut(lists, j + 1) == o.volumeCut;
    }
    if r.NotFinite? {
      FiniteWithCut(points, field, m, dim, o, q, lists, p);
    } else if r.Failed? {
      forall j: nat | o.Radius(j) <= o.maxRadius ensures j < |lists| {
        RadiusBounded(o.initialRadius, o.radiusStep, |lists|, j, o.maxRadius);
      }
    } else {
      var n: nat := |lists| - 1;
      assert Holds(points, m, o.volumeCut, q, dim, o.Radius(n));
    }
  }

  /** The largest radius tried decides: with none there, there is none at any of
      the smaller ones. */
  lemma LargestDecides(points: seq<Point>, m: Metric, dim: nat, o: Options, q: Point, n: nat)
    requires o.radiusStep > 0.0 && o.initialRadius >= 0.0
    requires o.Radius(n) <= o.maxRadius < o.Radius(n + 1)
    ensures NoRadiusHolds(points, m, dim, o, q) <==> !Holds(points, m, o.volumeCut, q, dim, o.Radius(n))
  {
    hide Holds;
    forall j: nat | o.Radius(j) <= o.maxRadius && !Holds(points, m, o.volumeCut, q, dim, o.Radius(n))
      ensures !Holds(points, m, o.volumeCut, q, dim, o.Radius(j))
    {
      if j > n {
        RadiusGrows(o.initialRadius, o.radiusStep, n + 1, j);
      }
      RadiusGrows(o.initialRadius, o.radiusStep, 0, j);
      RadiusGrows(o.initialRadius, o.radiusStep, j, n);
      if Holds(points, m, o.volumeCut, q, dim, o.Radius(j)) {
        HoldsGrows(points, m, o.volumeCut, o.volumeCut, q, dim, o.Radius(j), o.Radius(n));
      }
    }
  }
}
