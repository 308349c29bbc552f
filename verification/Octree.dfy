/** The index-based octree: one successor array, relinked in place so that the
    points of every octant form a stretch of a single linked list. */
module Octrees {
  import opened Slots
  import opened Geometry
  import opened Octants
  import opened Relinking
  import opened Bounds
  import opened Queries

  /** 0, 1, ..., n - 1. */
  ghost function Indices(n: nat): (s: seq<nat>)
    ensures |s| == n && forall k :: 0 <= k < n ==> s[k] == k
  {
    seq(n, k requires 0 <= k < n => k)
  }

  lemma NoParts(o: Cube, pts: seq<Point>, list: seq<nat>, succ: seq<nat>)
    requires Within(list, |pts|)
    ensures list[..0] == []
    ensures Parted(o, pts, [], seq(8, _ => 0), seq(8, _ => 0), seq(8, _ => 0), succ)
  {}

  lemma NothingYet(child: seq<Octant>, o: Cube, params: Params, pts: seq<Point>, list: seq<nat>)
    requires Within(list, |pts|) && child == seq(8, _ => Null)
    ensures Grown(child, 0, o, params, pts, []) && Rearranges([], Parts(o, pts, list, 0))
  {}

  /** The ends of the list so far, and the child that it ends with. */
  ghost predicate Tracked(firsttime: bool, lastChildIdx: nat, start: nat, end: nat, child: seq<Octant>, i: nat,
                          ordered: seq<nat>) {
    && (firsttime <==> ordered == [])
    && (!firsttime ==>
          && start == ordered[0] && lastChildIdx < i && lastChildIdx < |child| && child[lastChildIdx].Octant?
          && child[lastChildIdx].end == ordered[|ordered| - 1] == end)
  }

  lemma TrackedIs(firsttime: bool, lastChildIdx: nat, start: nat, end: nat, child: seq<Octant>, i: nat,
                  ordered: seq<nat>)
    ensures Tracked(firsttime, lastChildIdx, start, end, child, i, ordered) <==>
      && (firsttime <==> ordered == [])
      && (!firsttime ==>
            && start == ordered[0] && lastChildIdx < i && lastChildIdx < |child| && child[lastChildIdx].Octant?
            && child[lastChildIdx].end == ordered[|ordered| - 1] == end)
    ensures Tracked(firsttime, lastChildIdx, start, end, child, i, ordered) ==>
      Tracked(firsttime, lastChildIdx, start, end, child, i + 1, ordered)
  {}

  lemma BuiltEnds(o: Octant, params: Params, pts: seq<Point>, order: seq<nat>)
    requires Built(o, params, pts, order)
    ensures o.Octant? && order != [] && o.start == order[0] && o.end == order[|order| - 1] < |pts|
  {}

  lemma AllPending(o: Cube, pts: seq<Point>, list: seq<nat>, starts: seq<nat>, ends: seq<nat>, sizes: seq<nat>,
                   succ: seq<nat>)
    requires Within(list, |pts|) && Parted(o, pts, list, starts, ends, sizes, succ)
    ensures Pending(o, pts, list, 0, starts, ends, sizes, succ)
  {
    hide Linked;
  }

  lemma PendingAt(o: Cube, pts: seq<Point>, list: seq<nat>, i: nat, starts: seq<nat>, ends: seq<nat>, sizes: seq<nat>,
                  succ: seq<nat>)
    requires Within(list, |pts|) && i < 8 && Pending(o, pts, list, i, starts, ends, sizes, succ)
    ensures |starts| == 8 && |ends| == 8 && |sizes| == 8
    ensures Linked(starts[i], ends[i], sizes[i], Part(o, pts, list, i), succ)
    ensures sizes[i] == 0 ==> Pending(o, pts, list, i + 1, starts, ends, sizes, succ)
  {
    hide Linked;
  }

  lemma IsHook(part: seq<nat>, order: seq<nat>, more: seq<nat>, before: seq<nat>, after: seq<nat>, linked: seq<nat>)
    requires |before| == |after| && more != []
    requires forall k :: 0 <= k < |before| && k !in part ==> after[k] == before[k]
    requires order != [] ==> order[|order| - 1] < |after|
    requires linked == if order == [] then after else after[order[|order| - 1] := more[0]]
    ensures Hook(part, order, more, before, after, linked)
  {}

  lemma NoneYet(q: Query, pts: seq<Point>, sq: Extended)
    ensures SqUnbeaten(q, pts, sq, [])
  {}

  lemma StaleFacts(m: Metric, most: Extended, sqMost: Extended)
    requires Stale(m, most, sqMost)
    ensures most.Finite? ==> most.value >= 0.0
    ensures sqMost.Finite? ==> most.Finite? && m.Sqr(most.value) <= sqMost.value
  {}

  lemma ChainOfOne(succ: seq<nat>, idx: nat)
    ensures Chain(succ, [idx])
  {}

  /** The link of an element not passed yet is still the original one. */
  lemma NextOf(before: seq<nat>, succ: seq<nat>, list: seq<nat>, i: nat)
    requires NoDup(list) && Chain(before, list) && i < |list| && |before| == |succ|
    requires forall k :: 0 <= k < |succ| && k !in list[..i] ==> succ[k] == before[k]
    requires forall k :: 0 <= k < |list| ==> list[k] < |succ|
    ensures i + 1 < |list| ==> succ[list[i]] == list[i + 1]
  {
    assert list[i] !in list[..i];
  }

  class Octree {
    var params: Params
    var root: Octant
    var data: seq<Point>
    var successors: array<nat>
    /** The indices of the points in the order of the linked list. */
    ghost var order: seq<nat>

    ghost predicate Valid()
      reads this, successors
    {
      if root.Null? then order == [] else
        && successors.Length == |data|
        && Built(root, params, data, order) && NoDup(order)
        && Chain(successors[..], order)
    }

    constructor ()
      ensures Valid() && root.Null? && fresh(successors)
    {
      params := Params(32, 0.0);
      root := Null;
      data := [];
      successors := new nat[0];
      order := [];
    }

    method Clear()
      modifies this
      ensures Valid() && root.Null? && data == [] && order == [] && fresh(successors) && successors.Length == 0
      ensures params == old(params)
    {
      root := Null;
      data := [];
      successors := new nat[0];
      order := [];
    }

    /** Builds the tree over all points. */
    method Initialize(pts: seq<Point>, prms: Params)
      requires pts != [] && Divisible(prms, pts, Indices(|pts|))
      modifies this
      ensures Valid() && root.Octant? && data == pts && params == prms && fresh(successors)
      ensures Rearranges(order, Indices(|pts|))
    {
      hide Box, Divisible, Finishes, Built, Coincide;
      Clear();
      params := prms;
      data := pts;
      var n := |pts|;
      successors := new nat[n];
      ghost var list := Indices(n);
      var lo, hi := pts[0], pts[0];
      BoxOfOne(pts, 0);
      for i := 0 to n
        invariant data == pts && params == prms && fresh(successors) && successors.Length == n
        invariant forall k :: 0 <= k < i ==> successors[k] == k + 1
        invariant i == 0 ==> lo == hi == pts[0]
        invariant i > 0 ==> Box(pts, list[..i], lo, hi)
      {
        successors[i] := i + 1;
        var p := pts[i];
        if i > 0 {
          BoxStep(pts, list[..i], lo, hi, i);
          assert list[..i] + [i] == list[..i + 1];
        } else {
          assert list[..1] == [0];
        }
        lo, hi := Lower(lo, p), Upper(hi, p);
      }
      assert list[..n] == list;
      var o := RootCube(lo, hi, pts, list);
      SubdivisionEnds(prms, pts, o, list);
      ghost var fuel: nat :| Finishes(fuel, prms, pts, o, list);
      var r, all := CreateOctant(o, 0, n - 1, n, list, fuel);
      BuiltEnds(r, prms, pts, all);
      root, order := r, all;
    }

    /** Builds the tree over the listed points; the list must not repeat an index. */
    method InitializeFrom(pts: seq<Point>, indexes: seq<nat>, prms: Params)
      requires Within(indexes, |pts|) && NoDup(indexes) && Divisible(prms, pts, indexes)
      modifies this
      ensures Valid() && (root.Null? <==> indexes == []) && data == pts && params == prms && fresh(successors)
      ensures Rearranges(order, indexes)
    {
      hide Box, Divisible, Finishes, Built, Coincide, Chain;
      Clear();
      params := prms;
      data := pts;
      var n := |pts|;
      successors := new nat[n](_ => 0);
      if indexes == [] {
        return;
      }
      var lastIdx := indexes[0];
      var lo, hi := pts[lastIdx], pts[lastIdx];
      BoxOfOne(pts, lastIdx);
      ChainOfOne(successors[..], lastIdx);
      assert indexes[..1] == [lastIdx];
      for i := 1 to |indexes|
        invariant data == pts && params == prms && fresh(successors) && successors.Length == n
        invariant lastIdx == indexes[i - 1]
        invariant Chain(successors[..], indexes[..i])
        invariant Box(pts, indexes[..i], lo, hi)
      {
        var idx := indexes[i];
        ghost var before := successors[..];
        ChainExtend(before, indexes[..i], idx);
        successors[lastIdx] := idx;
        assert successors[..] == before[lastIdx := idx];
        var p := pts[idx];
        BoxStep(pts, indexes[..i], lo, hi, idx);
        assert indexes[..i] + [idx] == indexes[..i + 1];
        lo, hi := Lower(lo, p), Upper(hi, p);
        lastIdx := idx;
      }
      assert indexes[..|indexes|] == indexes;
      var o := RootCube(lo, hi, pts, indexes);
      SubdivisionEnds(prms, pts, o, indexes);
      ghost var fuel: nat :| Finishes(fuel, prms, pts, o, indexes);
      var r, all := CreateOctant(o, indexes[0], lastIdx, |indexes|, indexes, fuel);
      BuiltEnds(r, prms, pts, all);
      root, order := r, all;
    }

    /** The loop of createOctant that hands every point of the list to the part
        it falls into. */
    method Relink(cube: Cube, startIdx: nat, size: nat, ghost list: seq<nat>)
      returns (starts: seq<nat>, ends: seq<nat>, sizes: seq<nat>)
      requires successors.Length == |data| && Within(list, |data|) && NoDup(list)
      requires size == |list| > 0 && startIdx == list[0] && Chain(successors[..], list)
      modifies successors
      ensures Parted(cube, data, list, starts, ends, sizes, successors[..])
      ensures forall k :: 0 <= k < |data| && k !in list ==> successors[k] == old(successors[k])
    {
      hide Part, Linked, Cube.Code, Chain;
      starts, ends, sizes := seq(8, _ => 0), seq(8, _ => 0), seq(8, _ => 0);
      var idx := startIdx;
      ghost var before := successors[..];
      NoParts(cube, data, list, successors[..]);
      for i := 0 to size
        invariant Parted(cube, data, list[..i], starts, ends, sizes, successors[..])
        invariant i < size ==> idx == list[i]
        invariant forall k :: 0 <= k < |data| && k !in list[..i] ==> successors[k] == before[k]
      {
        var code := cube.Code(data[idx]);
        ghost var now := successors[..];
        PartedStep(cube, data, list, i, starts, ends, sizes, now);
        if sizes[code] == 0 {
          starts := starts[code := idx];
        } else {
          successors[ends[code]] := idx;
          assert successors[..] == now[ends[code] := idx];
        }
        sizes := sizes[code := sizes[code] + 1];
        ends := ends[code := idx];
        NextOf(before, successors[..], list, i);
        idx := successors[idx];
        assert forall k :: k in list[..i] ==> k in list[..i + 1];
      }
      assert list[..size] == list;
    }

    /** Builds the octant of the listed points and everything below it. */
    method CreateOctant(cube: Cube, startIdx: nat, endIdx: nat, size: nat, ghost list: seq<nat>, ghost fuel: nat)
      returns (octant: Octant, ghost ordered: seq<nat>)
      requires successors.Length == |data| && Within(list, |data|) && NoDup(list) && AllIn(cube, data, list)
      requires size > 0 && Linked(startIdx, endIdx, size, list, successors[..])
      requires Finishes(fuel, params, data, cube, list)
      modifies successors
      ensures Built(octant, params, data, ordered) && octant.cube == cube
      ensures Rearranges(ordered, list)
      ensures Chain(successors[..], ordered)
      ensures forall k :: 0 <= k < |data| && k !in list ==> successors[k] == old(successors[k])
      decreases fuel, 2
    {
      if !(size > params.bucketSize && cube.extent > 2.0 * params.minExtent) {
        octant, ordered := Octant(cube, startIdx, endIdx, size, true, seq(8, _ => Null)), list;
        return;
      }
      ghost var first := successors[..];
      var starts, ends, sizes := Relink(cube, startIdx, size, list);
      var start, end, child;
      start, end, child, ordered := CreateChildren(cube, starts, ends, sizes, list, first, fuel);
      octant := Octant(cube, start, end, size, false, child);
      hide Built, Part, Parts, Finishes, Grown, Chain, Linked, AllIn, Cube.Has;
      Complete(octant, params, data, list, ordered);
    }

    /** The loop of createOctant that creates the child nodes. */
    method CreateChildren(cube: Cube, starts: seq<nat>, ends: seq<nat>, sizes: seq<nat>,
                          ghost list: seq<nat>, ghost first: seq<nat>, ghost fuel: nat)
      returns (start: nat, end: nat, child: seq<Octant>, ghost ordered: seq<nat>)
      requires successors.Length == |data| && Within(list, |data|) && NoDup(list) && AllIn(cube, data, list)
      requires Parted(cube, data, list, starts, ends, sizes, successors[..])
      requires Finishes(fuel, params, data, cube, list) && Splits(params, |list|, cube.extent)
      requires Kept(list, first, successors[..])
      modifies successors
      ensures Grown(child, 8, cube, params, data, ordered)
      ensures Rearranges(ordered, Parts(cube, data, list, 8))
      ensures ordered != [] ==> start == ordered[0] && end == ordered[|ordered| - 1]
      ensures Chain(successors[..], ordered) && Kept(list, first, successors[..])
      decreases fuel, 1
    {
      child := seq(8, _ => Null);
      start, end := 0, 0;
      var firsttime, lastChildIdx := true, 0;
      ordered := [];
      NothingYet(child, cube, params, data, list);
      AllPending(cube, data, list, starts, ends, sizes, successors[..]);
      TrackedIs(firsttime, lastChildIdx, start, end, child, 0, ordered);
      hide *;
      for i := 0 to 8
        invariant |child| == 8 && Grown(child, i, cube, params, data, ordered)
        invariant Rearranges(ordered, Parts(cube, data, list, i))
        invariant Tracked(firsttime, lastChildIdx, start, end, child, i, ordered)
        invariant Chain(successors[..], ordered)
        invariant Pending(cube, data, list, i, starts, ends, sizes, successors[..])
        invariant Kept(list, first, successors[..])
      {
        PendingAt(cube, data, list, i, starts, ends, sizes, successors[..]);
        TrackedIs(firsttime, lastChildIdx, start, end, child, i, ordered);
        if sizes[i] == 0 {
          GrowSkip(child, i, cube, params, data, ordered);
          NoPart(cube, data, list, i, starts[i], ends[i], successors[..]);
        } else {
          var kid, kids :=
            AppendChild(cube, i, starts, ends, sizes, child, firsttime, lastChildIdx, list, ordered, first, fuel);
          if firsttime {
            start := kid.start;
          }
          child := child[i := kid];
          lastChildIdx := i;
          end := kid.end;
          firsttime := false;
          ordered := ordered + kids;
          TrackedIs(firsttime, lastChildIdx, start, end, child, i + 1, ordered);
        }
      }
      TrackedIs(firsttime, lastChildIdx, start, end, child, 8, ordered);
    }

    /** Creates child i and, unless it is the first one, links the end of the
        last child to its start. */
    method AppendChild(cube: Cube, i: nat, starts: seq<nat>, ends: seq<nat>, sizes: seq<nat>, child: seq<Octant>,
                       firsttime: bool, lastChildIdx: nat,
                       ghost list: seq<nat>, ghost ordered: seq<nat>, ghost first: seq<nat>, ghost fuel: nat)
      returns (kid: Octant, ghost kids: seq<nat>)
      requires successors.Length == |data| && Within(list, |data|) && NoDup(list) && AllIn(cube, data, list)
      requires Finishes(fuel, params, data, cube, list) && Splits(params, |list|, cube.extent)
      requires i < 8 && |child| == 8 && Grown(child, i, cube, params, data, ordered)
      requires Pending(cube, data, list, i, starts, ends, sizes, successors[..]) && sizes[i] > 0
      requires Rearranges(ordered, Parts(cube, data, list, i)) && Chain(successors[..], ordered)
      requires firsttime <==> ordered == []
      requires !firsttime ==>
        lastChildIdx < 8 && child[lastChildIdx].Octant? && child[lastChildIdx].end == ordered[|ordered| - 1]
      requires Kept(list, first, successors[..])
      modifies successors
      ensures kid.Octant? && kids != [] && kid.start == kids[0] && kid.end == kids[|kids| - 1]
      ensures Grown(child[i := kid], i + 1, cube, params, data, ordered + kids)
      ensures Rearranges(ordered + kids, Parts(cube, data, list, i + 1)) && Chain(successors[..], ordered + kids)
      ensures Pending(cube, data, list, i + 1, starts, ends, sizes, successors[..]) && Kept(list, first, successors[..])
      decreases fuel, 0
    {
      hide *;
      PendingAt(cube, data, list, i, starts, ends, sizes, successors[..]);
      PartReady(cube, params, data, list, i, fuel);
      PartsInList(cube, data, list, i, ordered);
      ghost var before := successors[..];
      kid, kids := CreateOctant(cube.Sub(i), starts[i], ends[i], sizes[i], Part(cube, data, list, i), fuel - 1);
      ghost var after := successors[..];
      BuiltEnds(kid, params, data, kids);
      if !firsttime {
        successors[child[lastChildIdx].end] := kid.start;
      }
      IsHook(Part(cube, data, list, i), ordered, kids, before, after, successors[..]);
      Adopt(cube, params, data, list, i, child, kid, ordered, kids, first, before, after, successors[..], starts,
            ends, sizes);
    }

    // ----- radius queries

    /** The indices of the points closer than the radius, in the order of the tree;
        under the Euclidean distance some of them only, if the radius is negative. */
    method RadiusNeighbors(m: Metric, query: Point, radius: real) returns (resultIndices: seq<nat>)
      requires Valid()
      ensures Within(order, |data|)
      ensures resultIndices == if root.Null? then [] else Answer(m, query, radius, root, params, data, order)
      ensures NoDup(resultIndices)
      ensures forall i: nat :: i in resultIndices ==> i in order && m.Compute(query, data[i]) < m.Sqr(radius)
      ensures Sound(m, radius) ==> resultIndices == Near(m, data, query, m.Sqr(radius), order)
      ensures Sound(m, radius) ==>
        forall i: nat :: i in resultIndices <==> i in order && m.Compute(query, data[i]) < m.Sqr(radius)
    {
      if root.Null? {
        NearNil(m, data, query, m.Sqr(radius));
        return [];
      }
      hide Built, Chain, Near, Answer, Sound, Metric.Compute, Metric.Sqr;
      resultIndices := NeighborsBelow(root, m, query, radius, m.Sqr(radius), order, []);
      assert [] + Answer(m, query, radius, root, params, data, order)
          == Answer(m, query, radius, root, params, data, order);
      AnswerIsNear(m, query, radius, root, params, data, order, successors[..]);
      AnswerCorrect(m, query, radius, data, order, resultIndices);
    }

    /** Extends `found` by what the octant answers. */
    method NeighborsBelow(octant: Octant, m: Metric, query: Point, radius: real, sqrRadius: real, ghost mine: seq<nat>,
                          found: seq<nat>)
      returns (resultIndices: seq<nat>)
      requires successors.Length == |data| && Built(octant, params, data, mine) && Chain(successors[..], mine)
      requires sqrRadius == m.Sqr(radius)
      ensures resultIndices == found + Answer(m, query, radius, octant, params, data, mine)
      decreases octant
    {
      hide Built, Offset, Stretch, Coded, Chain, AllIn, Near, Overlaps, Contains, Metric.Compute, Metric.Sqr, Cube.Sub,
           AnswerUpTo;
      InnerFacts(octant, params, data, mine);
      if Contains(m, query, sqrRadius, octant.cube) {
        resultIndices := AppendAll(octant.start, octant.size, mine, found);
        return;
      }
      if octant.isLeaf {
        resultIndices := AppendNear(octant.start, octant.size, m, query, sqrRadius, mine, found);
        return;
      }
      resultIndices := found;
      AnswerStep(m, query, radius, octant, params, data, mine, 0);
      for c := 0 to 8
        invariant resultIndices == found + AnswerUpTo(m, query, radius, octant, params, data, mine, c)
      {
        AnswerStep(m, query, radius, octant, params, data, mine, c + 1);
        ChildOf(octant, params, data, mine, successors[..], c);
        if octant.child[c].Octant? {
          if Overlaps(m, query, Finite(radius), Finite(sqrRadius), octant.child[c].cube) {
            resultIndices := NeighborsBelow(octant.child[c], m, query, radius, sqrRadius,
                                            Stretch(octant.child, mine, c),
                                            resultIndices);
          }
        }
      }
    }

    method AppendAll(start: nat, size: nat, ghost mine: seq<nat>, found: seq<nat>) returns (resultIndices: seq<nat>)
      requires successors.Length == |data| && Within(mine, |data|) && Chain(successors[..], mine)
      requires size == |mine| > 0 && start == mine[0]
      ensures resultIndices == found + mine
    {
      resultIndices := found;
      var idx := start;
      for i := 0 to size
        invariant resultIndices == found + mine[..i]
        invariant i < size ==> idx == mine[i]
      {
        resultIndices := resultIndices + [idx];
        idx := successors[idx];
      }
      assert mine[..size] == mine;
    }

    method AppendNear(start: nat, size: nat, m: Metric, query: Point, sqrRadius: real, ghost mine: seq<nat>,
                      found: seq<nat>)
      returns (resultIndices: seq<nat>)
      requires successors.Length == |data| && Within(mine, |data|) && Chain(successors[..], mine)
      requires size == |mine| > 0 && start == mine[0]
      ensures resultIndices == found + Near(m, data, query, sqrRadius, mine)
    {
      hide Near, Metric.Compute;
      NearNil(m, data, query, sqrRadius);
      resultIndices := found;
      var idx := start;
      for i := 0 to size
        invariant resultIndices == found + Near(m, data, query, sqrRadius, mine[..i])
        invariant i < size ==> idx == mine[i]
      {
        var dist := m.Compute(query, data[idx]);
        NearStep(m, data, query, sqrRadius, mine, i);
        if dist < sqrRadius {
          resultIndices := resultIndices + [idx];
        }
        idx := successors[idx];
      }
      assert mine[..size] == mine;
    }

    // ----- the nearest neighbour

    /** The index of a nearest point among those farther than minDistance; -1 if there is none. */
    method FindNeighbor(m: Metric, query: Point, minDistance: real) returns (resultIndex: int)
      requires Valid() && m.Valid()
      ensures Within(order, |data|)
      ensures resultIndex == -1 <==> forall i :: i in order ==> !Query(m, query, minDistance).Candidate(data[i])
      ensures resultIndex != -1 ==>
        && 0 <= resultIndex < |data| && resultIndex as nat in order
        && Query(m, query, minDistance).Candidate(data[resultIndex])
        && forall i :: i in order && Query(m, query, minDistance).Candidate(data[i]) ==>
             m.Compute(query, data[resultIndex]) <= m.Compute(query, data[i])
    {
      if root.Null? {
        return -1;
      }
      var q := Query(m, query, minDistance);
      hide Built, Chain, Exclusive, Held, Unbeaten, PartOf, Query.Candidate, Metric.Compute, Metric.Valid;
      InnerFacts(root, params, data, order);
      StartOut(q, data, order, root.cube);
      var done, most, result := NearestBelow(root, q, Infinite, -1, order, order);
      LeastOfAll(q, data, most, result, order);
      return result;
    }

    /** Improves on the result by what the octant holds; `done` when no other
        octant can hold anything better. */
    method NearestBelow(octant: Octant, q: Query, maxDistance: Extended, resultIndex: int, ghost mine: seq<nat>,
                        ghost all: seq<nat>)
      returns (done: bool, most: Extended, result: int)
      requires successors.Length == |data| && Built(octant, params, data, mine) && Chain(successors[..], mine)
      requires q.m.Valid()
      requires Within(mine, |data|) && Within(all, |data|) && PartOf(mine, all)
      requires Exclusive(octant.cube, data, all, mine)
      requires Held(q, data, maxDistance, resultIndex, all)
      ensures Held(q, data, most, result, all) && NotLarger(most, maxDistance)
      ensures Unbeaten(q, data, most, mine)
      ensures done ==> Unbeaten(q, data, most, all)
      decreases octant, 2
    {
      hide Built, Offset, Stretch, Coded, Chain, AllIn, Metric.Valid, Cube.Sub,
           PartOf, Exclusive, Held, Unbeaten, NotLarger, Cube.Code, Stale, Examined;
      InnerFacts(octant, params, data, mine);
      if octant.isLeaf {
        most, result := NearestInLeaf(octant.start, octant.size, q, maxDistance, resultIndex, mine, all);
      } else {
        var mortonCode := octant.cube.Code(q.at);
        HeldFacts(q, data, maxDistance, resultIndex, all);
        ChildOf(octant, params, data, mine, successors[..], mortonCode);
        done, most, result := false, maxDistance, resultIndex;
        if octant.child[mortonCode].Octant? {
          done, most, result := NearestInChild(octant, mortonCode, q, most, result, mine, all);
          if done {
            Narrower(q, data, most, mine, all);
            return;
          }
        }
        ExaminedFirst(q, octant.child, data, mine, most, mortonCode);
        ghost var first := most;
        done, most, result := NearestInOthers(octant, mortonCode, q, most, result, mine, all);
        NotLargerChain(most, first, maxDistance);
        if done {
          Narrower(q, data, most, mine, all);
          return;
        }
        AllUnbeaten(q, octant, params, data, mine, most, mortonCode);
      }
      done := Inside(q.at, most, octant.cube);
      if done {
        HeldFacts(q, data, most, result, all);
        InsideUnbeaten(q, data, most, octant.cube, all, mine);
      }
    }

    method NearestInLeaf(start: nat, size: nat, q: Query, maxDistance: Extended, resultIndex: int,
                         ghost mine: seq<nat>, ghost all: seq<nat>)
      returns (most: Extended, result: int)
      requires successors.Length == |data| && Within(mine, |data|) && Chain(successors[..], mine) && q.m.Valid()
      requires size == |mine| > 0 && start == mine[0] && PartOf(mine, all)
      requires Held(q, data, maxDistance, resultIndex, all)
      ensures Held(q, data, most, result, all) && NotLarger(most, maxDistance) && Unbeaten(q, data, most, mine)
    {
      hide Metric.Compute, Metric.Valid, Metric.Sqr, Metric.Sqrt, Held, Unbeaten, SqUnbeaten, Metric.SqrOf,
           Metric.SqrtOf;
      HeldFacts(q, data, maxDistance, resultIndex, all);
      IntoSquares(q, data, maxDistance, resultIndex, all);
      var idx := start;
      var sqrMaxDistance := q.m.SqrOf(maxDistance);
      var sqrMinDistance := q.Least();
      result := resultIndex;
      NoneYet(q, data, sqrMaxDistance);
      for i := 0 to size
        invariant i < size ==> idx == mine[i]
        invariant SqHeld(q, data, sqrMaxDistance, result, all) && SqUnbeaten(q, data, sqrMaxDistance, mine[..i])
        invariant NotLarger(sqrMaxDistance, q.m.SqrOf(maxDistance))
      {
        var dist := q.m.Compute(q.at, data[idx]);
        SqStep(q, data, sqrMaxDistance, mine, i);
        assert idx in mine;
        if dist > sqrMinDistance && sqrMaxDistance.Above(dist) {
          result := idx;
          sqrMaxDistance := Finite(dist);
        }
        idx := successors[idx];
      }
      assert mine[..size] == mine;
      most := q.m.SqrtOf(sqrMaxDistance);
      OutOfSquares(q, data, sqrMaxDistance, result, mine, all, maxDistance);
    }

    /** The recursive call for child c. */
    method NearestInChild(octant: Octant, c: nat, q: Query, maxDistance: Extended, resultIndex: int,
                          ghost mine: seq<nat>, ghost all: seq<nat>)
      returns (done: bool, most: Extended, result: int)
      requires successors.Length == |data| && Built(octant, params, data, mine) && Chain(successors[..], mine)
      requires q.m.Valid()
      requires !octant.isLeaf && c < |octant.child| && octant.child[c].Octant?
      requires Within(mine, |data|) && Within(all, |data|) && PartOf(mine, all)
      requires Exclusive(octant.cube, data, all, mine)
      requires Held(q, data, maxDistance, resultIndex, all)
      ensures Held(q, data, most, result, all) && NotLarger(most, maxDistance)
      ensures Offset(octant.child, c + 1) <= |mine| && Within(Stretch(octant.child, mine, c), |data|)
      ensures Unbeaten(q, data, most, Stretch(octant.child, mine, c))
      ensures done ==> Unbeaten(q, data, most, all)
      decreases octant, 0
    {
      ChildOf(octant, params, data, mine, successors[..], c);
      hide *;
      ghost var part := Stretch(octant.child, mine, c);
      InnerFacts(octant.child[c], params, data, part);
      ExclusiveChild(octant, params, data, mine, all, c);
      StretchPart(octant.child, mine, all, c);
      done, most, result := NearestBelow(octant.child[c], q, maxDistance, resultIndex, part, all);
    }

    /** The children other than the one the query falls into. */
    method NearestInOthers(octant: Octant, mortonCode: nat, q: Query, maxDistance: Extended, resultIndex: int,
                           ghost mine: seq<nat>, ghost all: seq<nat>)
      returns (done: bool, most: Extended, result: int)
      requires successors.Length == |data| && Built(octant, params, data, mine) && Chain(successors[..], mine)
      requires q.m.Valid()
      requires !octant.isLeaf && mortonCode < 8
      requires Within(mine, |data|) && Within(all, |data|) && PartOf(mine, all)
      requires Exclusive(octant.cube, data, all, mine)
      requires Held(q, data, maxDistance, resultIndex, all)
      requires Examined(q, octant.child, data, mine, maxDistance, mortonCode, 0)
      ensures Held(q, data, most, result, all) && NotLarger(most, maxDistance)
      ensures if done then Unbeaten(q, data, most, all) else Examined(q, octant.child, data, mine, most, mortonCode, 8)
      decreases octant, 1
    {
      hide Built, Offset, Stretch, Coded, Chain, AllIn, Overlaps, Metric.Valid, Cube.Sub,
           PartOf, Exclusive, Held, Unbeaten, NotLarger, Cube.Code, Stale, Examined;
      InnerFacts(octant, params, data, mine);
      done, most, result := false, maxDistance, resultIndex;
      HeldFacts(q, data, most, result, all);
      var sqrMaxDistance := q.m.SqrOf(most);
      for c := 0 to 8
        invariant Held(q, data, most, result, all) && NotLarger(most, maxDistance) && Stale(q.m, most, sqrMaxDistance)
        invariant Examined(q, octant.child, data, mine, most, mortonCode, c)
      {
        ChildOf(octant, params, data, mine, successors[..], c);
        ghost var before, part := most, Stretch(octant.child, mine, c);
        HeldFacts(q, data, most, result, all);
        if c != mortonCode && octant.child[c].Octant? {
          if Overlaps(q.m, q.at, most, sqrMaxDistance, octant.child[c].cube) {
            done, most, result := NearestInChild(octant, c, q, most, result, mine, all);
            NotLargerChain(most, before, maxDistance);
            if done {
              return;
            }
          } else {
            InnerFacts(octant.child[c], params, data, part);
            StaleFacts(q.m, most, sqrMaxDistance);
            PrunedUnbeaten(q, data, most, sqrMaxDistance, part, octant.child[c].cube);
          }
        }
        HeldFacts(q, data, most, result, all);
        StaleStep(q.m, before, most, sqrMaxDistance);
        ExaminedStep(q, octant.child, data, mine, before, most, mortonCode, c);
      }
    }
  }
}
