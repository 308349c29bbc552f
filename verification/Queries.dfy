/** What the queries of the octree answer, and why pruning loses nothing. */
module Queries {
  import opened Slots
  import opened Geometry
  import opened Octants

  // ----- the tree as seen by a query

  /** The first n children hold the first stretches of the order. */
  lemma StretchSplit(child: seq<Octant>, order: seq<nat>, c: nat)
    requires c < |child| && Offset(child, c + 1) <= |order|
    ensures order[..Offset(child, c + 1)] == order[..Offset(child, c)] + Stretch(child, order, c)
    ensures child[c].Null? ==> Stretch(child, order, c) == []
  {}

  /** What a child of an inner octant is. */
  lemma ChildOf(o: Octant, params: Params, pts: seq<Point>, order: seq<nat>, succ: seq<nat>, c: nat)
    requires Built(o, params, pts, order) && !o.isLeaf && c < |o.child| && Chain(succ, order)
    ensures |o.child| == 8
    ensures o.child[c].Null? ==> Stretch(o.child, order, c) == []
    ensures Offset(o.child, c + 1) <= |order| && Chain(succ, Stretch(o.child, order, c))
    ensures o.child[c].Octant? ==> Built(o.child[c], params, pts, Stretch(o.child, order, c))
    ensures o.child[c].Octant? ==> o.child[c].cube == o.cube.Sub(c)
    ensures Coded(o.cube, pts, Stretch(o.child, order, c), c)
    ensures order[..Offset(o.child, c + 1)] == order[..Offset(o.child, c)] + Stretch(o.child, order, c)
  {
    assert Offset(o.child, c + 1) <= o.size;
    StretchSplit(o.child, order, c);
    ChainSlice(succ, order, Offset(o.child, c), Offset(o.child, c + 1));
  }

  lemma InnerFacts(o: Octant, params: Params, pts: seq<Point>, order: seq<nat>)
    requires Built(o, params, pts, order)
    ensures o.Octant? && Within(order, |pts|) && AllIn(o.cube, pts, order)
    ensures o.size == |order| > 0 && o.start == order[0] && o.end == order[|order| - 1]
    ensures !o.isLeaf ==>
      |o.child| == 8 && Offset(o.child, 0) == 0 && order[..0] == [] && order[..Offset(o.child, 8)] == order
  {}

  /** Every index of the order is in the stretch of the child its point falls into. */
  lemma {:induction false} InStretch(child: seq<Octant>, order: seq<nat>, n: nat, i: nat)
    requires n <= |child| && Bounded(child, |order|) && i in order[..Offset(child, n)]
    ensures exists c :: 0 <= c < n && Offset(child, c + 1) <= |order| && i in Stretch(child, order, c)
  {
    assert Offset(child, n) <= |order|;
    StretchSplit(child, order, n - 1);
    if i in Stretch(child, order, n - 1) {
    } else {
      InStretch(child, order, n - 1, i);
    }
  }

  // ----- following the successors

  function Follow(succ: seq<nat>, from: nat, steps: nat): nat {
    if steps == 0 then from else
    var i := Follow(succ, from, steps - 1);
    if i < |succ| then succ[i] else i
  }

  lemma {:induction false} FollowChain(succ: seq<nat>, list: seq<nat>, k: nat)
    requires Chain(succ, list) && k < |list|
    ensures Follow(succ, list[0], k) == list[k]
  {
    if k == 0 {
    } else {
      FollowChain(succ, list, k - 1);
    }
  }

  /** `d` is o or a descendant of it, and holds the stretch `part` of the order. */
  ghost predicate Below(o: Octant, order: seq<nat>, d: Octant, part: seq<nat>)
    decreases o
  {
    || (d == o && part == order)
    || (o.Octant? && !o.isLeaf && exists c ::
          && 0 <= c < |o.child| && o.child[c].Octant? && Offset(o.child, c + 1) <= |order|
          && Below(o.child[c], Stretch(o.child, order, c), d, part))
  }

  /** From the start of the octant, size - 1 successors lead through exactly the
      points of `part`, each once, to its end. */
  ghost predicate Walks(d: Octant, part: seq<nat>, succ: seq<nat>) {
    && d.Octant? && |part| == d.size > 0 && NoDup(part)
    && (forall k :: 0 <= k < d.size ==> Follow(succ, d.start, k) == part[k])
    && Follow(succ, d.start, d.size - 1) == d.end
  }

  lemma WalkHere(o: Octant, params: Params, pts: seq<Point>, order: seq<nat>, succ: seq<nat>)
    requires Built(o, params, pts, order) && Chain(succ, order) && NoDup(order)
    ensures Walks(o, order, succ)
  {
    forall k | 0 <= k < o.size ensures Follow(succ, o.start, k) == order[k] {
      FollowChain(succ, order, k);
    }
  }

  ghost predicate IsSlice(part: seq<nat>, s: seq<nat>, a: nat, b: nat) {
    a <= b <= |s| && part == s[a..b]
  }

  lemma WholeSlice(s: seq<nat>)
    ensures IsSlice(s, s, 0, |s|)
  {}

  lemma SliceOfSlice(part: seq<nat>, middle: seq<nat>, s: seq<nat>, u: nat, v: nat, a: nat, b: nat)
    requires IsSlice(middle, s, u, v) && IsSlice(part, middle, a, b)
    ensures IsSlice(part, s, u + a, u + b)
  {
    forall k | 0 <= k < b - a ensures part[k] == s[u + a..u + b][k] {
      assert middle[a + k] == s[u + a + k];
    }
  }

  lemma StretchSlice(child: seq<Octant>, order: seq<nat>, c: nat)
    requires c < |child| && Offset(child, c + 1) <= |order|
    ensures IsSlice(Stretch(child, order, c), order, Offset(child, c), Offset(child, c + 1))
    ensures NoDup(order) ==> NoDup(Stretch(child, order, c))
  {}

  lemma StepDown(o: Octant, order: seq<nat>, d: Octant, part: seq<nat>) returns (c: nat)
    requires Below(o, order, d, part) && !(d == o && part == order)
    ensures o.Octant? && !o.isLeaf && c < |o.child| && o.child[c].Octant?
    ensures Offset(o.child, c + 1) <= |order| && Below(o.child[c], Stretch(o.child, order, c), d, part)
  {
    c :| 0 <= c < |o.child| && o.child[c].Octant? && Offset(o.child, c + 1) <= |order| &&
        Below(o.child[c], Stretch(o.child, order, c), d, part);
  }

  /** The walk along every octant of the tree. */
  lemma {:induction false} DescendantWalk(o: Octant, params: Params, pts: seq<Point>, order: seq<nat>, succ: seq<nat>,
                                          d: Octant, part: seq<nat>)
    returns (a: nat, b: nat)
    requires Built(o, params, pts, order) && Chain(succ, order) && NoDup(order)
    requires Below(o, order, d, part)
    ensures Built(d, params, pts, part) && Walks(d, part, succ)
    ensures IsSlice(part, order, a, b)
    decreases o
  {
    hide *;
    if d == o && part == order {
      WalkHere(o, params, pts, order, succ);
      a, b := 0, |order|;
      WholeSlice(order);
    } else {
      var c := StepDown(o, order, d, part);
      ChildOf(o, params, pts, order, succ, c);
      var middle := Stretch(o.child, order, c);
      StretchSlice(o.child, order, c);
      var x, y := DescendantWalk(o.child[c], params, pts, middle, succ, d, part);
      var u, v := Offset(o.child, c), Offset(o.child, c + 1);
      a, b := u + x, u + y;
      SliceOfSlice(part, middle, order, u, v, x, y);
    }
  }

  // ----- radius queries

  /** The listed points closer than the squared radius, in their order. */
  ghost function Near(m: Metric, pts: seq<Point>, q: Point, sq: real, list: seq<nat>): (near: seq<nat>)
    requires Within(list, |pts|)
    ensures Within(near, |pts|)
  {
    if list == [] then [] else
    var n := |list| - 1;
    Near(m, pts, q, sq, list[..n]) + if m.Compute(q, pts[list[n]]) < sq then [list[n]] else []
  }

  lemma NearStep(m: Metric, pts: seq<Point>, q: Point, sq: real, list: seq<nat>, i: nat)
    requires Within(list, |pts|) && i < |list|
    ensures Near(m, pts, q, sq, list[..i + 1])
         == Near(m, pts, q, sq, list[..i]) + if m.Compute(q, pts[list[i]]) < sq then [list[i]] else []
  {
    assert list[..i + 1][..i] == list[..i];
  }

  lemma NearMore(m: Metric, pts: seq<Point>, q: Point, sq: real, list: seq<nat>, i: nat)
    requires Within(list, |pts|) && i < |pts|
    ensures Within(list + [i], |pts|)
    ensures Near(m, pts, q, sq, list + [i]) == Near(m, pts, q, sq, list) + if m.Compute(q, pts[i]) < sq then [i] else []
  {
    assert (list + [i])[..|list|] == list;
  }

  lemma {:induction false} NearJoin(m: Metric, pts: seq<Point>, q: Point, sq: real, a: seq<nat>, b: seq<nat>)
    requires Within(a, |pts|) && Within(b, |pts|)
    ensures Within(a + b, |pts|)
    ensures Near(m, pts, q, sq, a + b) == Near(m, pts, q, sq, a) + Near(m, pts, q, sq, b)
  {
    hide *;
    Joined(a, b, |pts|);
    if b == [] {
      NearNil(m, pts, q, sq);
      assert a + b == a && Near(m, pts, q, sq, a) + [] == Near(m, pts, q, sq, a);
    } else {
      var front, last := b[..|b| - 1], b[|b| - 1];
      NearJoin(m, pts, q, sq, a, front);
      NearMore(m, pts, q, sq, a + front, last);
      NearMore(m, pts, q, sq, front, last);
      assert b == front + [last];
      JoinAssociates(a, front, [last]);
      var t: seq<nat> := if m.Compute(q, pts[last]) < sq then [last] else [];
      JoinAssociates(Near(m, pts, q, sq, a), Near(m, pts, q, sq, front), t);
    }
  }

  lemma Joined(a: seq<nat>, b: seq<nat>, n: nat)
    requires Within(a, n) && Within(b, n)
    ensures Within(a + b, n)
    ensures b != [] ==> Within(b[..|b| - 1], n) && b[|b| - 1] < n && Within(a + b[..|b| - 1], n)
  {}

  lemma JoinAssociates(a: seq<nat>, b: seq<nat>, c: seq<nat>)
    ensures (a + b) + c == a + (b + c)
  {}

  lemma NearNil(m: Metric, pts: seq<Point>, q: Point, sq: real)
    ensures Near(m, pts, q, sq, []) == []
  {}

  /** One more child of an inner octant. */
  lemma NearChild(m: Metric, q: Point, sq: real, o: Octant, params: Params, pts: seq<Point>, order: seq<nat>,
                  succ: seq<nat>, c: nat)
    requires Built(o, params, pts, order) && !o.isLeaf && c < |o.child| && Chain(succ, order)
    ensures Offset(o.child, c) <= Offset(o.child, c + 1) <= |order|
    ensures Within(order, |pts|) && Within(Stretch(o.child, order, c), |pts|)
    ensures Near(m, pts, q, sq, order[..Offset(o.child, c + 1)])
         == Near(m, pts, q, sq, order[..Offset(o.child, c)]) + Near(m, pts, q, sq, Stretch(o.child, order, c))
  {
    ChildOf(o, params, pts, order, succ, c);
    hide Near, Metric.Compute;
    NearJoin(m, pts, q, sq, order[..Offset(o.child, c)], Stretch(o.child, order, c));
  }

  lemma {:induction false} NearHas(m: Metric, pts: seq<Point>, q: Point, sq: real, list: seq<nat>, i: nat)
    requires Within(list, |pts|)
    ensures i in Near(m, pts, q, sq, list) <==> i in list && m.Compute(q, pts[i]) < sq
  {
    hide Metric.Compute;
    if list == [] {
    } else {
      var n := |list| - 1;
      NearHas(m, pts, q, sq, list[..n], i);
      assert list == list[..n] + [list[n]];
    }
  }

  lemma {:induction false} NearNoDup(m: Metric, pts: seq<Point>, q: Point, sq: real, list: seq<nat>)
    requires Within(list, |pts|) && NoDup(list)
    ensures NoDup(Near(m, pts, q, sq, list))
  {
    hide Metric.Compute;
    if list == [] {
    } else {
      var n := |list| - 1;
      NearNoDup(m, pts, q, sq, list[..n]);
      NearHas(m, pts, q, sq, list[..n], list[n]);
      assert list[n] !in list[..n];
    }
  }

  /** Where the cube is contained in the ball, every point is near. */
  lemma {:induction false} NearAll(m: Metric, pts: seq<Point>, q: Point, sq: real, list: seq<nat>, o: Cube)
    requires Within(list, |pts|) && AllIn(o, pts, list) && Contains(m, q, sq, o)
    ensures Near(m, pts, q, sq, list) == list
  {
    hide Contains, Metric.Compute, Cube.Has;
    if list == [] {
    } else {
      var n := |list| - 1;
      NearAll(m, pts, q, sq, list[..n], o);
      assert o.Has(pts[list[n]]);
      ContainsSound(m, q, sq, o, pts[list[n]]);
    }
  }

  /** Where the ball does not overlap the cube, no point is near. */
  lemma {:induction false} NearNone(m: Metric, pts: seq<Point>, q: Point, radius: real, list: seq<nat>, o: Cube)
    requires Within(list, |pts|) && AllIn(o, pts, list) && !Overlaps(m, q, Finite(radius), Finite(m.Sqr(radius)), o)
    requires m.Euclidean? ==> radius >= 0.0
    ensures Near(m, pts, q, m.Sqr(radius), list) == []
  {
    hide Overlaps, Metric.Compute, Cube.Has;
    if list == [] {
    } else {
      var n := |list| - 1;
      NearNone(m, pts, q, radius, list[..n], o);
      assert o.Has(pts[list[n]]);
      if radius >= 0.0 {
        OverlapsSound(m, q, Finite(radius), Finite(m.Sqr(radius)), o, pts[list[n]]);
      } else {
        ComputeIsNorm(m, q, pts[list[n]]);
      }
    }
  }

  // ----- what the recursive query answers, for any radius

  /** What the query appends for the octant: everything, a filtered leaf, or what
      it appends for the children that overlap the ball. */
  ghost function Answer(m: Metric, q: Point, radius: real, o: Octant, params: Params, pts: seq<Point>,
                        order: seq<nat>): seq<nat>
    requires Built(o, params, pts, order)
    decreases o, 9
  {
    if Contains(m, q, m.Sqr(radius), o.cube) then order
    else if o.isLeaf then Near(m, pts, q, m.Sqr(radius), order)
    else AnswerUpTo(m, q, radius, o, params, pts, order, 8)
  }

  ghost function AnswerUpTo(m: Metric, q: Point, radius: real, o: Octant, params: Params, pts: seq<Point>,
                            order: seq<nat>,
                            c: nat): seq<nat>
    requires Built(o, params, pts, order) && !o.isLeaf && c <= 8
    decreases o, c
  {
    if c == 0 then [] else
    AnswerUpTo(m, q, radius, o, params, pts, order, c - 1) + AnswerOf(m, q, radius, o, params, pts, order, c - 1)
  }

  ghost function AnswerOf(m: Metric, q: Point, radius: real, o: Octant, params: Params, pts: seq<Point>,
                          order: seq<nat>,
                          c: nat): seq<nat>
    requires Built(o, params, pts, order) && !o.isLeaf && c < 8
    decreases o, c
  {
    var kid := o.child[c];
    if kid.Null? || !Overlaps(m, q, Finite(radius), Finite(m.Sqr(radius)), kid.cube) then [] else
    assert Offset(o.child, c + 1) <= |order|;
    Answer(m, q, radius, kid, params, pts, Stretch(o.child, order, c))
  }

  ghost predicate Sound(m: Metric, radius: real) {
    m.Euclidean? ==> radius >= 0.0
  }

  /** Nothing is answered that is not near, nor twice; for every radius but a
      negative one under the Euclidean distance, nothing is missed either. */
  ghost predicate Answers(m: Metric, radius: real, answer: seq<nat>, near: seq<nat>) {
    multiset(answer) <= multiset(near) && (Sound(m, radius) ==> answer == near)
  }

  lemma {:induction false} AnswerIsNear(m: Metric, q: Point, radius: real, o: Octant, params: Params, pts: seq<Point>,
                                        order: seq<nat>, succ: seq<nat>)
    requires Built(o, params, pts, order) && Chain(succ, order)
    ensures Within(order, |pts|)
    ensures Answers(m, radius, Answer(m, q, radius, o, params, pts, order), Near(m, pts, q, m.Sqr(radius), order))
    decreases o, 9
  {
    InnerFacts(o, params, pts, order);
    hide Built, Chain, Near, Overlaps, Contains, Metric.Compute, Metric.Sqr, Offset, AllIn, AnswerUpTo, Sound;
    if Contains(m, q, m.Sqr(radius), o.cube) {
      NearAll(m, pts, q, m.Sqr(radius), order, o.cube);
    } else if !o.isLeaf {
      AnswerUpToIsNear(m, q, radius, o, params, pts, order, succ, 8);
    }
  }

  lemma {:induction false} AnswerUpToIsNear(m: Metric, q: Point, radius: real, o: Octant, params: Params,
                                            pts: seq<Point>,
                                            order: seq<nat>, succ: seq<nat>, c: nat)
    requires Built(o, params, pts, order) && !o.isLeaf && Chain(succ, order) && c <= 8
    requires Offset(o.child, 0) == 0 && order[..0] == [] && |o.child| == 8
    ensures Offset(o.child, c) <= |order| && Within(order, |pts|)
    ensures Answers(m, radius, AnswerUpTo(m, q, radius, o, params, pts, order, c),
                    Near(m, pts, q, m.Sqr(radius), order[..Offset(o.child, c)]))
    decreases o, c
  {
    InnerFacts(o, params, pts, order);
    hide *;
    AnswerStep(m, q, radius, o, params, pts, order, c);
    if c == 0 {
      NearNil(m, pts, q, m.Sqr(radius));
      NoAnswer(m, radius);
    } else {
      AnswerUpToIsNear(m, q, radius, o, params, pts, order, succ, c - 1);
      NearChild(m, q, m.Sqr(radius), o, params, pts, order, succ, c - 1);
      AnswerOfIsNear(m, q, radius, o, params, pts, order, succ, c - 1);
      AnswersJoin(m, radius, AnswerUpTo(m, q, radius, o, params, pts, order, c - 1),
                  AnswerOf(m, q, radius, o, params, pts, order, c - 1),
                  Near(m, pts, q, m.Sqr(radius), order[..Offset(o.child, c - 1)]),
                  Near(m, pts, q, m.Sqr(radius), Stretch(o.child, order, c - 1)));
    }
  }

  lemma NoAnswer(m: Metric, radius: real)
    ensures Answers(m, radius, [], [])
  {}

  lemma AnswerStep(m: Metric, q: Point, radius: real, o: Octant, params: Params, pts: seq<Point>, order: seq<nat>,
                   c: nat)
    requires Built(o, params, pts, order) && !o.isLeaf && c <= 8
    ensures c == 0 ==> AnswerUpTo(m, q, radius, o, params, pts, order, c) == []
    ensures c > 0 ==>
      AnswerUpTo(m, q, radius, o, params, pts, order, c)
      == AnswerUpTo(m, q, radius, o, params, pts, order, c - 1) + AnswerOf(m, q, radius, o, params, pts, order, c - 1)
  {
    hide Built, AnswerOf;
  }

  lemma AnswersJoin(m: Metric, radius: real, a: seq<nat>, b: seq<nat>, near: seq<nat>, more: seq<nat>)
    requires Answers(m, radius, a, near) && Answers(m, radius, b, more)
    ensures Answers(m, radius, a + b, near + more)
  {}

  lemma {:induction false} AnswerOfIsNear(m: Metric, q: Point, radius: real, o: Octant, params: Params, pts: seq<Point>,
                                          order: seq<nat>, succ: seq<nat>, c: nat)
    requires Built(o, params, pts, order) && !o.isLeaf && Chain(succ, order) && c < 8
    ensures |o.child| == 8 && Offset(o.child, c + 1) <= |order| && Within(Stretch(o.child, order, c), |pts|)
    ensures Answers(m, radius, AnswerOf(m, q, radius, o, params, pts, order, c),
                    Near(m, pts, q, m.Sqr(radius), Stretch(o.child, order, c)))
    decreases o, c
  {
    InnerFacts(o, params, pts, order);
    ChildOf(o, params, pts, order, succ, c);
    var kid, part := o.child[c], Stretch(o.child, order, c);
    assert kid.Octant? ==> kid < o;
    assert Within(part, |pts|);
    hide Built, Chain, Near, Overlaps, Contains, Metric.Compute, Metric.Sqr, Offset, AllIn, Stretch;
    if kid.Null? {
      NearNil(m, pts, q, m.Sqr(radius));
    } else {
      InnerFacts(kid, params, pts, part);
      if Overlaps(m, q, Finite(radius), Finite(m.Sqr(radius)), kid.cube) {
        hide Sound;
        AnswerIsNear(m, q, radius, kid, params, pts, part, succ);
      } else if Sound(m, radius) {
        NearNone(m, pts, q, radius, part, kid.cube);
      }
    }
  }

  /** So what is answered is close enough and not repeated. */
  lemma AnswerCorrect(m: Metric, q: Point, radius: real, pts: seq<Point>, order: seq<nat>, answer: seq<nat>)
    requires Within(order, |pts|) && NoDup(order)
    requires Answers(m, radius, answer, Near(m, pts, q, m.Sqr(radius), order))
    ensures NoDup(answer) && forall i :: i in answer ==> i in order && m.Compute(q, pts[i]) < m.Sqr(radius)
    ensures Sound(m, radius) ==>
      forall i: nat :: i in answer <==> i in order && m.Compute(q, pts[i]) < m.Sqr(radius)
  {
    hide Near, Metric.Compute, Metric.Sqr, Sound;
    var near := Near(m, pts, q, m.Sqr(radius), order);
    NearNoDup(m, pts, q, m.Sqr(radius), order);
    SubNoDup(answer, near);
    hide NoDup;
    forall i: nat ensures i in near <==> i in order && m.Compute(q, pts[i]) < m.Sqr(radius) {
      NearHas(m, pts, q, m.Sqr(radius), order, i);
    }
  }

  // ----- exactly when the query is right

  /** Point i is in the answer if it is close enough. */
  ghost predicate Finds(m: Metric, radius: real, o: Octant, params: Params, pts: seq<Point>, order: seq<nat>,
                        q: Point, i: nat)
    requires Built(o, params, pts, order)
  {
    i in order && m.Compute(q, pts[i]) < m.Sqr(radius) ==> i in Answer(m, q, radius, o, params, pts, order)
  }

  /** No tree misses a point that is close enough. */
  ghost predicate NeverMisses(m: Metric, radius: real) {
    forall o: Octant, params: Params, pts: seq<Point>, order: seq<nat>, succ: seq<nat>, q: Point, i: nat ::
      Built(o, params, pts, order) && Chain(succ, order) ==> Finds(m, radius, o, params, pts, order, q, i)
  }

  /** Exactly for which radii the query finds all points that are close enough. */
  lemma QueryExact(m: Metric, radius: real)
    ensures NeverMisses(m, radius) <==> !(m.Euclidean? && radius < 0.0)
  {
    if m.Euclidean? && radius < 0.0 {
      var o, params, pts, order, succ := MissingTree(m, radius);
      hide Built, Chain, Near, Answer, Metric.Compute, Metric.Sqr;
      assert 0 in order;
      assert !Finds(m, radius, o, params, pts, order, pts[0], 0);
    } else {
      hide Built, Chain, Finds;
      forall o: Octant, params: Params, pts: seq<Point>, order: seq<nat>, succ: seq<nat>, q: Point, i: nat
        | Built(o, params, pts, order) && Chain(succ, order)
        ensures Finds(m, radius, o, params, pts, order, q, i)
      {
        NearFinds(m, radius, o, params, pts, order, succ, q, i);
      }
    }
  }

  lemma NearFinds(m: Metric, radius: real, o: Octant, params: Params, pts: seq<Point>, order: seq<nat>, succ: seq<nat>,
                  q: Point, i: nat)
    requires Built(o, params, pts, order) && Chain(succ, order) && Sound(m, radius)
    ensures Finds(m, radius, o, params, pts, order, q, i)
  {
    AnswerIsNear(m, q, radius, o, params, pts, order, succ);
    hide Built, Chain, Near, Answer, Metric.Compute, Metric.Sqr;
    NearHas(m, pts, q, m.Sqr(radius), order, i);
  }

  /** The tree over two points in opposite corners: asked for the points around
      one of them with a negative radius, it rejects both leaves. */
  lemma MissingTree(m: Metric, radius: real)
    returns (o: Octant, params: Params, pts: seq<Point>, order: seq<nat>, succ: seq<nat>)
    requires m.Euclidean? && radius < 0.0
    ensures Built(o, params, pts, order) && Chain(succ, order) && order == [0, 1] && |pts| == 2
    ensures m.Compute(pts[0], pts[0]) < m.Sqr(radius) && Answer(m, pts[0], radius, o, params, pts, order) == []
  {
    var e := -radius;
    params, order, succ := Params(1, 0.0), [0, 1], [1, 2];
    pts := [Point(radius, radius, radius), Point(e, e, e)];
    var cube := Cube(0.0, 0.0, 0.0, e);
    var none := seq(8, _ => Null);
    var a, b := Octant(cube.Sub(0), 0, 0, 1, true, none), Octant(cube.Sub(7), 1, 1, 1, true, none);
    o := Octant(cube, 0, 1, 2, false, none[0 := a][7 := b]);
    TwoLeaves(o, a, b, params, pts, order);
    SqrPositive(m, radius);
    assert m.Compute(pts[0], pts[0]) == 0.0;
    BothRejected(m, radius, pts, cube);
    hide Built, Overlaps, Contains, Metric.Compute, Metric.Sqr, Cube.Sub, Answer;
    AnswerNothing(m, pts[0], radius, o, params, pts, order);
  }

  lemma AnswerNothing(m: Metric, q: Point, radius: real, o: Octant, params: Params, pts: seq<Point>, order: seq<nat>)
    requires Built(o, params, pts, order) && !o.isLeaf && !Contains(m, q, m.Sqr(radius), o.cube)
    requires forall c :: 0 <= c < |o.child| && o.child[c].Octant? ==>
      !Overlaps(m, q, Finite(radius), Finite(m.Sqr(radius)), o.child[c].cube)
    ensures Answer(m, q, radius, o, params, pts, order) == []
  {
    hide *;
    InnerFacts(o, params, pts, order);
    AnswerInner(m, q, radius, o, params, pts, order);
    AnswerStep(m, q, radius, o, params, pts, order, 0);
    for c := 0 to 8
      invariant AnswerUpTo(m, q, radius, o, params, pts, order, c) == []
    {
      AnswerStep(m, q, radius, o, params, pts, order, c + 1);
      NothingOf(m, q, radius, o, params, pts, order, c);
    }
  }

  lemma AnswerInner(m: Metric, q: Point, radius: real, o: Octant, params: Params, pts: seq<Point>, order: seq<nat>)
    requires Built(o, params, pts, order) && !o.isLeaf && !Contains(m, q, m.Sqr(radius), o.cube)
    ensures Answer(m, q, radius, o, params, pts, order) == AnswerUpTo(m, q, radius, o, params, pts, order, 8)
  {
    hide Built, AnswerUpTo, Contains, Metric.Sqr, Near;
  }

  lemma NothingOf(m: Metric, q: Point, radius: real, o: Octant, params: Params, pts: seq<Point>, order: seq<nat>,
                  c: nat)
    requires Built(o, params, pts, order) && !o.isLeaf && c < 8
    requires o.child[c].Null? || !Overlaps(m, q, Finite(radius), Finite(m.Sqr(radius)), o.child[c].cube)
    ensures AnswerOf(m, q, radius, o, params, pts, order, c) == []
  {
    hide Built, Overlaps, Metric.Sqr, Answer;
  }

  lemma BothRejected(m: Metric, radius: real, pts: seq<Point>, cube: Cube)
    requires m.Euclidean? && radius < 0.0 && cube == Cube(0.0, 0.0, 0.0, -radius)
    requires pts == [Point(radius, radius, radius), Point(-radius, -radius, -radius)]
    ensures !Contains(m, pts[0], m.Sqr(radius), cube)
    ensures !Overlaps(m, pts[0], Finite(radius), Finite(m.Sqr(radius)), cube.Sub(0))
    ensures !Overlaps(m, pts[0], Finite(radius), Finite(m.Sqr(radius)), cube.Sub(7))
  {
    CornerFar(m, -radius);
    assert m.Sqr(radius) == m.Sqr(-radius);
    assert cube.Sub(0) == Cube(0.5 * radius, 0.5 * radius, 0.5 * radius, -0.5 * radius);
    assert cube.Sub(7) == Cube(-0.5 * radius, -0.5 * radius, -0.5 * radius, -0.5 * radius);
    hide Metric.Norm, Metric.Sqr, Cube.Sub;
  }

  lemma CornerFar(m: Metric, e: real)
    requires m.Euclidean? && e > 0.0
    ensures m.Norm(e + e, e + e, e + e) >= m.Sqr(e)
  {
    NormBounds(m, e + e, e + e, e + e);
    SqrMonotone(m, e, e + e);
  }

  lemma TwoLeaves(o: Octant, a: Octant, b: Octant, params: Params, pts: seq<Point>, order: seq<nat>)
    requires params == Params(1, 0.0) && order == [0, 1] && |pts| == 2
    requires o.Octant? && o == Octant(o.cube, 0, 1, 2, false, seq(8, _ => Null)[0 := a][7 := b]) && o.cube.extent > 0.0
    requires a == Octant(o.cube.Sub(0), 0, 0, 1, true, seq(8, _ => Null))
    requires b == Octant(o.cube.Sub(7), 1, 1, 1, true, seq(8, _ => Null))
    requires o.cube.Has(pts[0]) && o.cube.Has(pts[1]) && o.cube.Code(pts[0]) == 0 && o.cube.Code(pts[1]) == 7
    ensures Built(o, params, pts, order)
  {
    SubHas(o.cube, pts[0]);
    SubHas(o.cube, pts[1]);
    hide Cube.Sub, Cube.Has, Cube.Code;
    var child := o.child;
    assert child[0] == a && child[7] == b && forall c :: 0 < c < 7 ==> child[c].Null?;
    OffsetsOfTwo(child);
    assert Stretch(child, order, 0) == [0] && Stretch(child, order, 7) == [1];
    LeafBuilt(a, params, pts, 0);
    LeafBuilt(b, params, pts, 1);
    hide Offset;
    assert AllIn(o.cube, pts, order);
    assert forall c :: 0 <= c <= 8 ==> Offset(child, c) <= 2;
  }

  lemma LeafBuilt(o: Octant, params: Params, pts: seq<Point>, i: nat)
    requires params == Params(1, 0.0) && i < |pts| && o.Octant?
    requires o == Octant(o.cube, i, i, 1, true, seq(8, _ => Null)) && o.cube.Has(pts[i])
    ensures Built(o, params, pts, [i])
  {}

  lemma OffsetsOfTwo(child: seq<Octant>)
    requires |child| == 8 && SizeOf(child[0]) == 1 && SizeOf(child[7]) == 1 && forall c :: 0 < c < 7 ==> child[c].Null?
    ensures forall c :: 0 <= c <= 8 ==> Offset(child, c) == if c == 0 then 0 else if c < 8 then 1 else 2
  {
    assert Offset(child, 0) == 0;
    for c := 1 to 7
      invariant forall d :: 0 < d <= c ==> Offset(child, d) == 1
    {
      assert Offset(child, c + 1) == Offset(child, c) + SizeOf(child[c]);
    }
  }

  // ----- the nearest neighbour

  /** What is asked: the point nearest to `at` among those farther than minDistance. */
  datatype Query = Query(m: Metric, at: Point, minDistance: real)
  {
    function Least(): real {
      if minDistance < 0.0 then minDistance else m.Sqr(minDistance)
    }

    predicate Candidate(p: Point) {
      m.Compute(at, p) > Least()
    }
  }

  /** The documentation compares with minDistance, the code with its square. */
  ghost predicate AsDocumented(q: Query) {
    forall p: Point :: q.Candidate(p) <==> q.m.Compute(q.at, p) > q.minDistance
  }

  /** Exactly when the two readings agree. */
  lemma LeastExact(q: Query)
    requires q.m.Valid()
    ensures AsDocumented(q) <==> !q.m.Euclidean? || q.minDistance <= 0.0 || q.minDistance == 1.0
  {
    var d := q.minDistance;
    if q.m.Euclidean? && d > 0.0 && d != 1.0 {
      var p := Disagreed(q);
    }
  }

  /** A point on which they disagree. */
  lemma Disagreed(q: Query) returns (p: Point)
    requires q.m.Euclidean? && q.minDistance > 0.0 && q.minDistance != 1.0
    ensures q.Candidate(p) != (q.m.Compute(q.at, p) > q.minDistance)
  {
    hide *;
    var d := q.minDistance;
    if d > 1.0 {
      p := Point(q.at.x - d, q.at.y, q.at.z);
      Aside(q, p, d);
      LargerSquare(d);
    } else {
      var x := 2.0 * d / (1.0 + d);
      p := Point(q.at.x - x, q.at.y, q.at.z);
      Aside(q, p, x);
      Between(d, x);
    }
  }

  /** A point x away along one axis. */
  lemma Aside(q: Query, p: Point, x: real)
    requires q.m.Euclidean? && q.minDistance > 0.0 && p == Point(q.at.x - x, q.at.y, q.at.z)
    ensures q.m.Compute(q.at, p) == x * x
    ensures q.Candidate(p) <==> x * x > q.minDistance * q.minDistance
  {
    assert q.at.x - p.x == x;
    assert q.m.Compute(q.at, p) == x * x;
    hide Metric.Compute;
  }

  lemma LargerSquare(d: real)
    requires d > 1.0
    ensures d * d > d
  {
    assert d * d - d == d * (d - 1.0);
  }

  /** x is above d, and its square is not. */
  lemma Between(d: real, x: real)
    requires 0.0 < d < 1.0 && x == 2.0 * d / (1.0 + d)
    ensures d * d < x * x <= d
  {
    var y := 1.0 + d;
    Ratio(2.0 * d, y);
    assert (x - d) * y == d * (1.0 - d) > 0.0;
    PositiveFactor(x - d, y);
    SquareStrict(d, x);
    Mean(d, x, y);
  }

  lemma Ratio(a: real, y: real)
    requires y != 0.0
    ensures a / y * y == a
  {}

  lemma PositiveFactor(a: real, y: real)
    requires y > 0.0
    ensures a * y > 0.0 ==> a > 0.0
    ensures a * y >= 0.0 ==> a >= 0.0
  {
    if a < 0.0 {
      assert -a * y > 0.0;
    }
  }

  lemma Mean(d: real, x: real, y: real)
    requires 0.0 < d && y == 1.0 + d && x * y == 2.0 * d
    ensures x * x <= d
  {
    assert y * y - 4.0 * d == (1.0 - d) * (1.0 - d) >= 0.0;
    SquaredProduct(x, y);
    PositiveProduct(d, y * y - 4.0 * d);
    assert (2.0 * d) * (2.0 * d) == d * (4.0 * d);
    assert (d - x * x) * (y * y) == d * (y * y) - (x * x) * (y * y);
    assert d * (y * y - 4.0 * d) == d * (y * y) - d * (4.0 * d);
    assert y * y > 0.0;
    PositiveFactor(d - x * x, y * y);
  }

  lemma SquaredProduct(x: real, y: real)
    ensures (x * x) * (y * y) == (x * y) * (x * y)
  {}

  lemma PositiveProduct(a: real, b: real)
    requires a >= 0.0 && b >= 0.0
    ensures a * b >= 0.0
  {}

  /** No candidate of the list is closer than maxDistance. */
  ghost predicate Unbeaten(q: Query, pts: seq<Point>, most: Extended, list: seq<nat>)
    requires Within(list, |pts|)
  {
    forall k :: 0 <= k < |list| && q.Candidate(pts[list[k]]) ==>
      most.Finite? && q.m.Compute(q.at, pts[list[k]]) >= q.m.Sqr(most.value)
  }

  /** maxDistance is the distance of the result, and infinite while there is none. */
  ghost predicate Held(q: Query, pts: seq<Point>, most: Extended, result: int, all: seq<nat>) {
    if most.Infinite? then result == -1 else
      && 0 <= result < |pts| && result as nat in all && q.Candidate(pts[result])
      && most.value >= 0.0 && q.m.Compute(q.at, pts[result]) == q.m.Sqr(most.value)
  }

  predicate NotLarger(a: Extended, b: Extended) {
    b.Infinite? || (a.Finite? && a.value <= b.value)
  }

  lemma StillUnbeaten(q: Query, pts: seq<Point>, a: Extended, b: Extended, list: seq<nat>)
    requires Within(list, |pts|) && Unbeaten(q, pts, b, list) && NotLarger(a, b) && (a.Finite? ==> a.value >= 0.0)
    ensures Unbeaten(q, pts, a, list)
  {
    hide Metric.Compute;
    if a.Finite? && b.Finite? {
      SqrMonotone(q.m, a.value, b.value);
    }
    hide Metric.Sqr, Query.Candidate;
  }

  /** An octant that does not overlap the ball of the best point so far, even
      measured by an older and larger squared bound, holds nothing better. */
  lemma PrunedUnbeaten(q: Query, pts: seq<Point>, most: Extended, sqMost: Extended, list: seq<nat>, o: Cube)
    requires Within(list, |pts|) && AllIn(o, pts, list)
    requires most.Finite? ==> most.value >= 0.0
    requires sqMost.Finite? ==> most.Finite? && q.m.Sqr(most.value) <= sqMost.value
    requires !Overlaps(q.m, q.at, most, sqMost, o)
    ensures Unbeaten(q, pts, most, list)
  {
    hide Overlaps, Metric.Compute, Metric.Sqr, Cube.Has;
    forall k | 0 <= k < |list| ensures most.Finite? && q.m.Compute(q.at, pts[list[k]]) >= q.m.Sqr(most.value) {
      assert o.Has(pts[list[k]]);
      OverlapsSound(q.m, q.at, most, sqMost, o, pts[list[k]]);
    }
  }

  /** Points of the tree that an octant does not hold are not in the interior of its cube. */
  ghost predicate Exclusive(o: Cube, pts: seq<Point>, all: seq<nat>, mine: seq<nat>)
    requires Within(all, |pts|)
  {
    forall i :: i in all && i !in mine ==> o.Outside(pts[i])
  }

  lemma ExclusiveChild(o: Octant, params: Params, pts: seq<Point>, order: seq<nat>, all: seq<nat>, c: nat)
    requires Built(o, params, pts, order) && !o.isLeaf && c < 8
    requires Within(all, |pts|) && Exclusive(o.cube, pts, all, order)
    ensures Offset(o.child, c + 1) <= |order|
    ensures Exclusive(o.cube.Sub(c), pts, all, Stretch(o.child, order, c))
  {
    assert Offset(o.child, c + 1) <= o.size;
    forall i | i in all && i !in Stretch(o.child, order, c) ensures o.cube.Sub(c).Outside(pts[i]) {
      if i in order {
        assert order == order[..Offset(o.child, 8)];
        InStretch(o.child, order, 8, i);
        var d :| 0 <= d < 8 && Offset(o.child, d + 1) <= |order| && i in Stretch(o.child, order, d);
        StretchCode(o, params, pts, order, d, i);
        SubApart(o.cube, pts[i], c);
      } else {
        SubInterior(o.cube, pts[i], c);
      }
    }
  }

  lemma StretchCode(o: Octant, params: Params, pts: seq<Point>, order: seq<nat>, d: nat, i: nat)
    requires Built(o, params, pts, order) && !o.isLeaf && d < 8
    requires Offset(o.child, d + 1) <= |order| && i in Stretch(o.child, order, d)
    ensures i < |pts| && o.child[d].Octant? && o.cube.Code(pts[i]) == d
  {
    StretchSplit(o.child, order, d);
    assert Coded(o.cube, pts, Stretch(o.child, order, d), d);
    hide Cube.Code;
  }

  /** The search may stop when the ball of the best point is inside the octant. */
  lemma InsideUnbeaten(q: Query, pts: seq<Point>, most: Extended, o: Cube, all: seq<nat>, mine: seq<nat>)
    requires Within(all, |pts|) && Within(mine, |pts|) && Exclusive(o, pts, all, mine) && Unbeaten(q, pts, most, mine)
    requires Inside(q.at, most, o) && most.value >= 0.0
    ensures Unbeaten(q, pts, most, all)
  {
    assert most.Finite?;
    hide Inside, Metric.Compute, Metric.Sqr, Cube.Outside, Query.Candidate;
    forall k | 0 <= k < |all| && q.Candidate(pts[all[k]])
      ensures q.m.Compute(q.at, pts[all[k]]) >= q.m.Sqr(most.value)
    {
      if all[k] in mine {
        var j :| 0 <= j < |mine| && mine[j] == all[k];
        assert q.Candidate(pts[mine[j]]);
      } else {
        assert all[k] in all;
        InsideSound(q.m, q.at, most, o, pts[all[k]]);
      }
    }
  }

  // The same with squared distances, as in a leaf.

  ghost predicate SqHeld(q: Query, pts: seq<Point>, sq: Extended, result: int, all: seq<nat>) {
    if sq.Infinite? then result == -1 else
      && 0 <= result < |pts| && result as nat in all && q.Candidate(pts[result])
      && q.m.Compute(q.at, pts[result]) == sq.value
  }

  ghost predicate SqUnbeaten(q: Query, pts: seq<Point>, sq: Extended, list: seq<nat>)
    requires Within(list, |pts|)
  {
    forall k ::
      0 <= k < |list| && q.Candidate(pts[list[k]]) ==> sq.Finite? && q.m.Compute(q.at, pts[list[k]]) >= sq.value
  }

  lemma IntoSquares(q: Query, pts: seq<Point>, most: Extended, result: int, all: seq<nat>)
    requires Held(q, pts, most, result, all)
    ensures SqHeld(q, pts, q.m.SqrOf(most), result, all)
  {
    hide Metric.Compute, Metric.Sqr, Query.Candidate;
  }

  lemma OutOfSquares(q: Query, pts: seq<Point>, sq: Extended, result: int, list: seq<nat>, all: seq<nat>,
                     most: Extended)
    requires q.m.Valid() && Within(list, |pts|)
    requires SqHeld(q, pts, sq, result, all) && SqUnbeaten(q, pts, sq, list)
    requires NotLarger(sq, q.m.SqrOf(most)) && (most.Finite? ==> most.value >= 0.0)
    ensures Held(q, pts, q.m.SqrtOf(sq), result, all) && Unbeaten(q, pts, q.m.SqrtOf(sq), list)
    ensures NotLarger(q.m.SqrtOf(sq), most)
  {
    hide Metric.Compute, Metric.Sqr, Metric.Sqrt, Query.Candidate, Metric.Valid;
    if sq.Finite? {
      ComputeIsNorm(q.m, q.at, pts[result]);
      SqrtInverse(q.m, sq.value);
      if most.Finite? {
        SqrReflects(q.m, q.m.Sqrt(sq.value), most.value);
      }
    }
  }

  /** One more point of a leaf. */
  lemma SqStep(q: Query, pts: seq<Point>, sq: Extended, list: seq<nat>, i: nat)
    requires Within(list, |pts|) && i < |list| && SqUnbeaten(q, pts, sq, list[..i])
    ensures var d := q.m.Compute(q.at, pts[list[i]]);
      SqUnbeaten(q, pts, if q.Candidate(pts[list[i]]) && sq.Above(d) then Finite(d) else sq, list[..i + 1])
  {
    hide Metric.Compute, Query.Candidate;
    var d := q.m.Compute(q.at, pts[list[i]]);
    var sq' := if q.Candidate(pts[list[i]]) && sq.Above(d) then Finite(d) else sq;
    var less, more := list[..i], list[..i + 1];
    forall k | 0 <= k < |more| && q.Candidate(pts[more[k]])
      ensures sq'.Finite? && q.m.Compute(q.at, pts[more[k]]) >= sq'.value
    {
      if k < i {
        assert q.Candidate(pts[less[k]]);
      }
    }
  }

  /** Child `code` and the children before c hold nothing better. */
  ghost predicate Examined(q: Query, child: seq<Octant>, pts: seq<Point>, order: seq<nat>, most: Extended, code: nat,
                           c: nat) {
    forall d :: 0 <= d < |child| && (d < c || d == code) ==> Cleared(q, child, pts, order, most, d)
  }

  ghost predicate Cleared(q: Query, child: seq<Octant>, pts: seq<Point>, order: seq<nat>, most: Extended, d: nat) {
    && d < |child| && Offset(child, d + 1) <= |order| && Within(Stretch(child, order, d), |pts|)
    && Unbeaten(q, pts, most, Stretch(child, order, d))
  }

  lemma ExaminedFirst(q: Query, child: seq<Octant>, pts: seq<Point>, order: seq<nat>, most: Extended, code: nat)
    requires code < |child| && Offset(child, code + 1) <= |order| && Within(Stretch(child, order, code), |pts|)
    requires child[code].Null? || Unbeaten(q, pts, most, Stretch(child, order, code))
    ensures Examined(q, child, pts, order, most, code, 0)
  {}

  /** The bound has shrunk, and child c has been dealt with. */
  lemma ExaminedStep(q: Query, child: seq<Octant>, pts: seq<Point>, order: seq<nat>, most: Extended, less: Extended,
                     code: nat, c: nat)
    requires c < |child| && Examined(q, child, pts, order, most, code, c)
    requires NotLarger(less, most) && (less.Finite? ==> less.value >= 0.0)
    requires Offset(child, c + 1) <= |order| && Within(Stretch(child, order, c), |pts|)
    requires c == code || child[c].Null? || Unbeaten(q, pts, less, Stretch(child, order, c))
    ensures Examined(q, child, pts, order, less, code, c + 1)
  {
    hide Cleared, NotLarger, Unbeaten, Stretch, Offset, Within;
    if c != code {
      ClearedHere(q, child, pts, order, less, c);
    }
    forall d | 0 <= d < |child| && (d < c || d == code) ensures Cleared(q, child, pts, order, less, d) {
      ClearedStill(q, child, pts, order, most, less, d);
    }
  }

  lemma ClearedHere(q: Query, child: seq<Octant>, pts: seq<Point>, order: seq<nat>, most: Extended, c: nat)
    requires c < |child| && Offset(child, c + 1) <= |order| && Within(Stretch(child, order, c), |pts|)
    requires child[c].Null? || Unbeaten(q, pts, most, Stretch(child, order, c))
    ensures Cleared(q, child, pts, order, most, c)
  {}

  lemma ClearedStill(q: Query, child: seq<Octant>, pts: seq<Point>, order: seq<nat>, most: Extended, less: Extended,
                     d: nat)
    requires Cleared(q, child, pts, order, most, d) && NotLarger(less, most) && (less.Finite? ==> less.value >= 0.0)
    ensures Cleared(q, child, pts, order, less, d)
  {
    hide NotLarger, Stretch, Offset, Unbeaten;
    StillUnbeaten(q, pts, less, most, Stretch(child, order, d));
  }

  /** All children examined, all points examined. */
  lemma AllUnbeaten(q: Query, o: Octant, params: Params, pts: seq<Point>, order: seq<nat>, most: Extended, code: nat)
    requires Built(o, params, pts, order) && !o.isLeaf && Examined(q, o.child, pts, order, most, code, 8)
    ensures Within(order, |pts|) && Unbeaten(q, pts, most, order)
  {
    assert Within(order, |pts|) && |o.child| == 8 && Bounded(o.child, |order|) && order == order[..Offset(o.child, 8)];
    hide Metric.Compute, Metric.Sqr, Query.Candidate, Built;
    forall k | 0 <= k < |order| && q.Candidate(pts[order[k]])
      ensures most.Finite? && q.m.Compute(q.at, pts[order[k]]) >= q.m.Sqr(most.value)
    {
      InStretch(o.child, order, 8, order[k]);
      var d :| 0 <= d < 8 && Offset(o.child, d + 1) <= |order| && order[k] in Stretch(o.child, order, d);
      assert Cleared(q, o.child, pts, order, most, d);
      var s := Stretch(o.child, order, d);
      var j :| 0 <= j < |s| && s[j] == order[k];
      assert q.Candidate(pts[s[j]]);
    }
  }

  ghost predicate PartOf(mine: seq<nat>, all: seq<nat>) {
    forall i :: i in mine ==> i in all
  }

  lemma StretchPart(child: seq<Octant>, order: seq<nat>, all: seq<nat>, c: nat)
    requires c < |child| && Offset(child, c + 1) <= |order| && PartOf(order, all)
    ensures PartOf(Stretch(child, order, c), all)
  {}

  lemma Narrower(q: Query, pts: seq<Point>, most: Extended, mine: seq<nat>, all: seq<nat>)
    requires Within(all, |pts|) && Within(mine, |pts|) && PartOf(mine, all) && Unbeaten(q, pts, most, all)
    ensures Unbeaten(q, pts, most, mine)
  {
    hide Metric.Compute, Metric.Sqr, Query.Candidate;
    forall k | 0 <= k < |mine| && q.Candidate(pts[mine[k]])
      ensures most.Finite? && q.m.Compute(q.at, pts[mine[k]]) >= q.m.Sqr(most.value)
    {
      assert mine[k] in mine;
      var j :| 0 <= j < |all| && all[j] == mine[k];
      assert q.Candidate(pts[all[j]]);
    }
  }

  /** The squared bound was taken before the search of the children went on. */
  ghost predicate Stale(m: Metric, most: Extended, sqMost: Extended) {
    && (most.Finite? ==> most.value >= 0.0)
    && (sqMost.Finite? ==> most.Finite? && m.Sqr(most.value) <= sqMost.value)
  }

  lemma StaleStep(m: Metric, most: Extended, less: Extended, sqMost: Extended)
    requires Stale(m, most, sqMost) && NotLarger(less, most) && (less.Finite? ==> less.value >= 0.0)
    ensures Stale(m, less, sqMost)
  {
    hide Metric.Sqr;
    if less.Finite? && most.Finite? {
      SqrMonotone(m, less.value, most.value);
    }
  }

  lemma HeldFacts(q: Query, pts: seq<Point>, most: Extended, result: int, all: seq<nat>)
    requires Held(q, pts, most, result, all)
    ensures most.Finite? ==> most.value >= 0.0
    ensures Stale(q.m, most, q.m.SqrOf(most)) && NotLarger(most, most)
  {}

  lemma NotLargerChain(a: Extended, b: Extended, c: Extended)
    requires NotLarger(a, b) && NotLarger(b, c)
    ensures NotLarger(a, c)
  {}

  lemma StartOut(q: Query, pts: seq<Point>, all: seq<nat>, o: Cube)
    requires Within(all, |pts|)
    ensures Held(q, pts, Infinite, -1, all) && PartOf(all, all) && Exclusive(o, pts, all, all)
  {}

  /** Unbeaten among all points, the result is the answer. */
  lemma LeastOfAll(q: Query, pts: seq<Point>, most: Extended, result: int, all: seq<nat>)
    requires Within(all, |pts|) && Held(q, pts, most, result, all) && Unbeaten(q, pts, most, all)
    ensures result == -1 <==> forall i :: i in all ==> !q.Candidate(pts[i])
    ensures result != -1 ==>
      && 0 <= result < |pts| && result as nat in all && q.Candidate(pts[result])
      && forall i :: i in all && q.Candidate(pts[i]) ==> q.m.Compute(q.at, pts[result]) <= q.m.Compute(q.at, pts[i])
  {
    hide Metric.Compute, Metric.Sqr, Query.Candidate;
    forall i | i in all && q.Candidate(pts[i])
      ensures most.Finite? && q.m.Compute(q.at, pts[i]) >= q.m.Sqr(most.value)
    {
      var j :| 0 <= j < |all| && all[j] == i;
      assert q.Candidate(pts[all[j]]);
    }
  }
}
