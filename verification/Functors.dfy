/** The callable objects of combinations.h as data, and what running one of them
    to completion shows the user's callback.

    In the source a functor is a class template that holds another functor and
    the iterators of the ranges it works on. Each class is one constructor here.
 */
module Functors {
  import opened Slots
  import opened Arrangements
  import opened Rotations

  datatype Functor =
    | User                                         // bound_range around the user's f
    | Permute(f: Functor, l: nat, r: nat)          // call_permute, rev1
    | Combine(f: Functor, ranges: Ranges)          // call_combine_discontinuous
    | Circular(f: Functor, l: nat, r: nat)         // circular_permutation
    | Reversible(f: Functor, l: nat, r: nat)       // reversible_permutation
    | ReversibleCircular(f: Functor, l: nat, r: nat)  // reverse_circular_permutation
  {
    predicate Fits(n: nat) {
      match this
      case User => true
      case Combine(f, R) => f.Fits(n) && R.Fits(n) && R == Two(R.l1, R.r1, R.l2, R.r2)
      case Circular(f, l, r) => f.Fits(n) && l <= r <= n
      case Reversible(f, l, r) => f.Fits(n) && l <= r <= n
      case ReversibleCircular(f, l, r) => f.Fits(n) && l <= r <= n
      case Permute(f, l, r) => f.Fits(n) && l <= r <= n
    }

    function Rank(): nat {
      match this
      case User => 0
      case Permute(f, _, _) => f.Rank() + 1
      case Combine(f, _) => f.Rank() + 1
      case Circular(f, _, _) => f.Rank() + 2
      case Reversible(f, _, _) => f.Rank() + 6
      case ReversibleCircular(f, _, _) => f.Rank() + 7
    }
  }

  /** rev2: for each permutation of the first range, each one of the second. */
  function Rev2(f: Functor, l1: nat, r1: nat, l2: nat, r2: nat): (g: Functor)
    ensures g.Rank() == f.Rank() + 2
    ensures forall n :: f.Fits(n) && l1 <= r1 <= n && l2 <= r2 <= n ==> g.Fits(n)
  {
    Permute(Permute(f, l2, r2), l1, r1)
  }

  function Rev3(f: Functor, R: Ranges): (g: Functor)
    ensures g.Rank() == f.Rank() + 3
    ensures forall n :: f.Fits(n) && R.Fits(n) ==> g.Fits(n)
  {
    Permute(Rev2(f, R.l2, R.r2, R.l3, R.r3), R.l1, R.r1)
  }

  /** combine_discontinuous(R) with a rev2 over the same two ranges. */
  function Pair(f: Functor, R: Ranges): (g: Functor)
    ensures g.Rank() == f.Rank() + 3
    ensures forall n :: f.Fits(n) && R.Fits(n) && R == Two(R.l1, R.r1, R.l2, R.r2) ==> g.Fits(n)
  {
    Combine(Rev2(f, R.l1, R.r1, R.l2, R.r2), R)
  }

  /** The functor that combine_discontinuous3 builds around its rev3. */
  function Inner3(f: Functor, R: Ranges): (g: Functor)
    ensures g.Rank() == f.Rank() + 4
    ensures forall n :: f.Fits(n) && R.Fits(n) ==> g.Fits(n)
  {
    Combine(Rev3(f, R), Two(R.l2, R.r2, R.l3, R.r3))
  }

  /** All permutations of `e`: those that start with e[0], then those that start
      with e[1], and so on, the rest permuted likewise. */
  function Perms<T>(e: seq<T>): (xs: seq<seq<T>>)
    ensures AllSized(xs, |e|)
    decreases |e|, |e| + 1
  {
    if |e| <= 1 then [e] else PermsFrom(e, 0)
  }

  function PermsFrom<T>(e: seq<T>, j: nat): (xs: seq<seq<T>>)
    requires j <= |e| && |e| > 0
    ensures AllSized(xs, |e|)
    decreases |e|, |e| - j
  {
    if j == |e| then [] else PermsHeaded(e, j) + PermsFrom(e, j + 1)
  }

  function PermsHeaded<T>(e: seq<T>, j: nat): (xs: seq<seq<T>>)
    requires j < |e|
    ensures AllSized(xs, |e|)
    decreases |e|, 0
  {
    InsertAll([e[j]], 0, Perms(Without(e, j)))
  }

  function PutAll<T>(R: Ranges, s: seq<T>, cs: seq<seq<T>>): (xs: seq<seq<T>>)
    requires R.Fits(|s|) && AllSized(cs, R.Size())
    ensures |xs| == |cs| && AllSized(xs, |s|)
    ensures forall i :: 0 <= i < |cs| ==> xs[i] == R.Put(s, cs[i])
  {
    seq(|cs|, i requires 0 <= i < |cs| => R.Put(s, cs[i]))
  }

  /** `s` with the element at l moved i places to the right. */
  function Slide<T>(s: seq<T>, l: nat, i: nat): (t: seq<T>)
    requires l + i < |s|
    ensures |t| == |s|
  {
    s[..l] + s[l + 1..l + i + 1] + [s[l]] + s[l + i + 1..]
  }

  /** The array contents at which the user's callback runs when `f` is called on
      the content `s` and never told to stop, call by call. */
  function Visits<T>(f: Functor, s: seq<T>): (xs: seq<seq<T>>)
    requires f.Fits(|s|)
    ensures AllSized(xs, |s|)
    decreases f.Rank(), 0, 1
  {
    match f
    case User => [s]
    case Permute(g, l, r) => PermuteVisits(g, s, l, r)
    case Combine(g, R) => CombineVisits(g, s, R)
    case Circular(g, l, r) => if r - l <= 1 then Visits(g, s) else PermuteVisits(g, s, l + 1, r)
    case Reversible(g, l, r) => ReversibleVisits(g, s, l, r)
    case ReversibleCircular(g, l, r) =>
      if r - l <= 1 then Visits(g, s) else ReversibleVisits(g, s, l + 1, r)
  }

  function PermuteVisits<T>(f: Functor, s: seq<T>, l: nat, r: nat): (xs: seq<seq<T>>)
    requires f.Fits(|s|) && l <= r <= |s|
    ensures AllSized(xs, |s|)
    decreases f.Rank(), 2, 0
  {
    VisitsAll(f, |s|, PutAll(One(l, r), s, Perms(One(l, r).Get(s))))
  }

  function CombineVisits<T>(f: Functor, s: seq<T>, R: Ranges): (xs: seq<seq<T>>)
    requires f.Fits(|s|) && R.Fits(|s|)
    ensures AllSized(xs, |s|)
    decreases f.Rank(), 2, 0
  {
    VisitsAll(f, |s|, PutAll(R, s, Combos(R.Get(s), R.r1 - R.l1)))
  }

  function VisitsAll<T>(f: Functor, n: nat, states: seq<seq<T>>): (xs: seq<seq<T>>)
    requires f.Fits(n) && AllSized(states, n)
    ensures AllSized(xs, n)
    decreases f.Rank(), 1, |states|
  {
    if states == [] then [] else Visits(f, states[0]) + VisitsAll(f, n, states[1..])
  }

  /** combine_discontinuous3 with a rev3 over the same three ranges. */
  function Visits3<T>(f: Functor, s: seq<T>, R: Ranges): (xs: seq<seq<T>>)
    requires f.Fits(|s|) && R.Fits(|s|) && Proper3(R)
    ensures AllSized(xs, |s|)
    decreases f.Rank() + 4, 2, 0
  {
    VisitsAll(Inner3(f, R), |s|, PutAll(R, s, Combos3(R.Get(s), R.r1 - R.l1, R.r2 - R.l2)))
  }

  predicate Proper3(R: Ranges) {
    R.l1 < R.r1 && R.l2 < R.r2 && R.l3 < R.r3
  }

  /** The element at l stands i places further right; everything else is permuted. */
  function Held<T>(f: Functor, s: seq<T>, l: nat, r: nat, i: nat): (xs: seq<seq<T>>)
    requires f.Fits(|s|) && l <= r <= |s| && 0 < i < r - l
    ensures AllSized(xs, |s|)
    decreases f.Rank() + 4, 0, 0
  {
    Visits(Pair(f, Two(l, l + i, l + i + 1, r)), Slide(s, l, i))
  }

  function HeldFrom<T>(f: Functor, s: seq<T>, l: nat, r: nat, i: nat): (xs: seq<seq<T>>)
    requires f.Fits(|s|) && l <= r <= |s| && 0 < i
    ensures AllSized(xs, |s|)
    decreases f.Rank() + 4, 1, r - i
  {
    if i >= (r - l) / 2 then [] else Held(f, s, l, r, i) + HeldFrom(f, s, l, r, i + 1)
  }

  /** The array content after the original first element went to the middle m and
      the next one i places to the right: both are held, the rest is permuted. */
  function HeldBoth<T>(f: Functor, mid: seq<T>, l: nat, m: nat, r: nat, i: nat): (xs: seq<seq<T>>)
    requires f.Fits(|mid|) && l + 2 <= m && m + 1 < r <= |mid| && i < m - l
    ensures AllSized(xs, |mid|)
    decreases f.Rank() + 4, 3, 0
  {
    if i == 0 then
      Visits(Pair(f, Two(l + 1, m, m + 1, r)), mid)
    else if i == m - l - 1 then
      Visits(Pair(f, Two(l, m - 1, m + 1, r)), Slide(mid, l, i))
    else
      Visits3(f, Slide(mid, l, i), Ranges(l, l + i, l + i + 1, m, m + 1, r))
  }

  function HeldBothFrom<T>(f: Functor, mid: seq<T>, l: nat, m: nat, r: nat, i: nat): (xs: seq<seq<T>>)
    requires f.Fits(|mid|) && l + 2 <= m && m + 1 < r <= |mid|
    ensures AllSized(xs, |mid|)
    decreases f.Rank() + 4, 4, m - i
  {
    if i >= m - l then [] else HeldBoth(f, mid, l, m, r, i) + HeldBothFrom(f, mid, l, m, r, i + 1)
  }

  function ReversibleVisits<T>(f: Functor, s: seq<T>, l: nat, r: nat): (xs: seq<seq<T>>)
    requires f.Fits(|s|) && l <= r <= |s|
    ensures AllSized(xs, |s|)
    decreases f.Rank() + 5, 0, 0
  {
    var n := r - l;
    if n < 3 then Visits(f, s)
    else
      PermuteVisits(f, s, l + 1, r) + HeldFrom(f, s, l, r, 1) + MiddleVisits(f, s, l, r)
  }

  /** For an odd number of elements: the first one in the middle. */
  function MiddleVisits<T>(f: Functor, s: seq<T>, l: nat, r: nat): (xs: seq<seq<T>>)
    requires f.Fits(|s|) && l + 3 <= r <= |s|
    ensures AllSized(xs, |s|)
    decreases f.Rank() + 4, 5, 0
  {
    var m := l + (r - l) / 2;
    if (r - l) % 2 == 0 then []
    else if r - l == 3 then Visits(f, Slide(s, l, 1))
    else HeldBothFrom(f, Slide(s, l, m - l), l, m, r, 0)
  }

  /** The visits of `f` over the joined contents `cs`, one after another. */
  function VisitsOver<T>(f: Functor, R: Ranges, s: seq<T>, cs: seq<seq<T>>): (xs: seq<seq<T>>)
    requires f.Fits(|s|) && R.Fits(|s|) && AllSized(cs, R.Size())
    ensures AllSized(xs, |s|)
  {
    VisitsAll(f, |s|, PutAll(R, s, cs))
  }

  lemma {:induction false} VisitsAllConcat<T>(f: Functor, n: nat, xs: seq<seq<T>>, ys: seq<seq<T>>)
    requires f.Fits(n) && AllSized(xs, n) && AllSized(ys, n)
    ensures VisitsAll(f, n, xs + ys) == VisitsAll(f, n, xs) + VisitsAll(f, n, ys)
  {
    hide Visits, VisitsAll, Functor.Fits;
    if xs == [] {
      assert xs + ys == ys;
      VisitsAllNone<T>(f, n);
    } else {
      var zs := xs + ys;
      assert zs[1..] == xs[1..] + ys && zs[0] == xs[0];
      VisitsAllConcat(f, n, xs[1..], ys);
      VisitsAllHead(f, n, xs);
      VisitsAllHead(f, n, zs);
    }
  }

  lemma VisitsAllNone<T>(f: Functor, n: nat)
    requires f.Fits(n)
    ensures VisitsAll<T>(f, n, []) == []
  {}

  lemma VisitsAllHead<T>(f: Functor, n: nat, xs: seq<seq<T>>)
    requires f.Fits(n) && AllSized(xs, n) && xs != []
    ensures VisitsAll(f, n, xs) == Visits(f, xs[0]) + VisitsAll(f, n, xs[1..])
  {
    hide Visits;
  }

  lemma VisitsOverConcat<T>(f: Functor, R: Ranges, s: seq<T>, cs: seq<seq<T>>, ds: seq<seq<T>>)
    requires f.Fits(|s|) && R.Fits(|s|) && AllSized(cs, R.Size()) && AllSized(ds, R.Size())
    ensures VisitsOver(f, R, s, cs + ds) == VisitsOver(f, R, s, cs) + VisitsOver(f, R, s, ds)
  {
    assert PutAll(R, s, cs + ds) == PutAll(R, s, cs) + PutAll(R, s, ds);
    VisitsAllConcat(f, |s|, PutAll(R, s, cs), PutAll(R, s, ds));
  }

  lemma VisitsOverOne<T>(f: Functor, R: Ranges, s: seq<T>, c: seq<T>)
    requires f.Fits(|s|) && R.Fits(|s|) && |c| == R.Size()
    ensures VisitsOver(f, R, s, [c]) == Visits(f, R.Put(s, c))
  {
    hide Functor.Fits, Visits, VisitsAll, Ranges.Put;
    var t := R.Put(s, c);
    assert PutAll(R, s, [c]) == [t];
    VisitsAllOne(f, t);
  }

  lemma VisitsAllOne<T>(f: Functor, t: seq<T>)
    requires f.Fits(|t|)
    ensures VisitsAll(f, |t|, [t]) == Visits(f, t)
  {
    hide Visits;
    var none: seq<seq<T>> := [];
    assert [t][1..] == none;
    assert VisitsAll(f, |t|, none) == none;
  }

  lemma RestHeaded<T>(R: Ranges, s: seq<T>, e: seq<T>, j: nat, x: seq<T>)
    requires R.Fits(|s|) && |e| == R.Size() && R.l1 < R.r1 && j + (R.r1 - R.l1) < |e|
    requires |x| == |e| - j - 1
    ensures var k := R.r1 - R.l1;
            R.Rest(j).Put(R.Put(s, Current(e, k, j)), x) == R.Put(s, [e[j]] + x[..k - 1] + e[..j] + x[k - 1..])
  {
    hide Current, Ranges.Put;
    var k := R.r1 - R.l1;
    RestPut(R, s, Current(e, k, j), j, x);
    CurrentParts(e, k, j);
  }

  /** A first range of one element shows each element once. */
  lemma SingleHeaded<T>(f: Functor, R: Ranges, s: seq<T>, e: seq<T>, j: nat)
    requires f.Fits(|s|) && R.Fits(|s|) && |e| == R.Size() && R.r1 - R.l1 == 1 && j + 1 < |e|
    ensures VisitsOver(f, R, s, Headed(e, 1, j, Combos(e[j + 1..], 0))) == Visits(f, R.Put(s, Current(e, 1, j)))
  {
    hide *;
    HeadedSingle(e, j);
    VisitsOverOne(f, R, s, Current(e, 1, j));
  }

  /** A nested enumeration sees exactly the arrangements headed by e[j]. */
  lemma VisitsOverRest<T>(f: Functor, R: Ranges, s: seq<T>, e: seq<T>, j: nat, xs: seq<seq<T>>)
    requires f.Fits(|s|) && R.Fits(|s|) && |e| == R.Size() && R.l1 < R.r1 && j + (R.r1 - R.l1) < |e|
    requires AllSized(xs, |e| - j - 1)
    ensures var k := R.r1 - R.l1;
            VisitsOver(f, R.Rest(j), R.Put(s, Current(e, k, j)), xs)
            == VisitsOver(f, R, s, Headed(e, k, j, xs))
  {
    hide Functor.Fits, Visits, VisitsAll, Ranges.Put, Current;
    var k := R.r1 - R.l1;
    var t := R.Put(s, Current(e, k, j));
    var us, vs := PutAll(R.Rest(j), t, xs), PutAll(R, s, Headed(e, k, j, xs));
    forall i | 0 <= i < |xs| ensures us[i] == vs[i] {
      RestHeaded(R, s, e, j, xs[i]);
    }
    assert us == vs && |t| == |s|;
    assert VisitsOver(f, R.Rest(j), t, xs) == VisitsAll(f, |s|, us);
    assert VisitsOver(f, R, s, Headed(e, k, j, xs)) == VisitsAll(f, |s|, vs);
  }

  /** The closing rotations of combine_discontinuous. */
  lemma RotateBack<T>(R: Ranges, s: seq<T>, e: seq<T>, t: seq<T>)
    requires R.Fits(|s|) && R.l3 == R.r3 && |e| == R.Size()
    requires t == R.Put(s, Current(e, R.r1 - R.l1, R.r2 - R.l2))
    ensures Joined(t, R.l1, R.r1, R.l2, R.r2) == R.Put(s, e)
  {
    var d1, d2 := R.r1 - R.l1, R.r2 - R.l2;
    var c := Current(e, d1, d2);
    var Q := Two(R.l1, R.r1, R.l2, R.r2);
    hide Current, Joined, Ranges.Put;
    EmptyThird(R, Q, s, c);
    EmptyThird(R, Q, s, e);
    TwoParts(Q, s, e, t);
    JoinedIsPut(t, R.l1, R.r1, R.l2, R.r2);
    PutPut(Q, s, c, e);
  }

  lemma TwoParts<T>(R: Ranges, s: seq<T>, e: seq<T>, t: seq<T>)
    requires R.Fits(|s|) && R.l3 == R.r3 && |e| == R.Size()
    requires t == R.Put(s, Current(e, R.r1 - R.l1, R.r2 - R.l2))
    ensures var A, B := t[R.l1..R.r1], t[R.l2..R.r2];
      B + A == e && (B != [] ==> B[0] == e[0] && B[1..] + A == e[1..])
  {
    hide Current, Ranges.Put;
    var c := Current(e, R.r1 - R.l1, R.r2 - R.l2);
    GetPut(R, s, c);
    var A, B := t[R.l1..R.r1], t[R.l2..R.r2];
    assert A + B + [] == c;
    ThreeParts(e, A, B, []);
    assert B + [] + A == B + A;
    if B != [] {
      assert B[1..] + [] + A == B[1..] + A;
    }
  }

  lemma RotatePassed<T>(R: Ranges, s: seq<T>, e: seq<T>, t: seq<T>)
    requires R.Fits(|s|) && R.l3 == R.r3 && |e| == R.Size() && R.l1 < R.r1 && R.l2 < R.r2
    requires t == R.Put(s, Current(e, R.r1 - R.l1, R.r2 - R.l2))
    ensures Joined(t, R.l1, R.r1, R.l2 + 1, R.r2) == R.Put(s, Passed(e, R.r1 - R.l1))
  {
    hide Current, Passed, Joined, Ranges.Put;
    var Q := Two(R.l1, R.r1, R.l2 + 1, R.r2);
    TwoParts(R, s, e, t);
    assert t[R.l2..R.r2][1..] == t[R.l2 + 1..R.r2];
    JoinedIsPut(t, R.l1, R.r1, R.l2 + 1, R.r2);
    PassedPut(R, s, e, t);
    EmptyThird(R.(l2 := R.l2 + 1), Q, t, e[1..]);
  }

  lemma EmptyThird<T>(R: Ranges, Q: Ranges, t: seq<T>, c: seq<T>)
    requires R.Fits(|t|) && Q.Fits(|t|) && |c| == R.Size() && R.l3 == R.r3 && Q == Two(R.l1, R.r1, R.l2, R.r2)
    ensures R.Put(t, c) == Q.Put(t, c)
  {}

  lemma PassedPut<T>(R: Ranges, s: seq<T>, e: seq<T>, t: seq<T>)
    requires R.Fits(|s|) && |e| == R.Size() && R.l1 < R.r1 && R.l2 < R.r2
    requires |t| == |s| && (forall i :: 0 <= i < |s| && !R.Holds(i) ==> t[i] == s[i]) && t[R.l2] == e[0]
    ensures R.(l2 := R.l2 + 1).Put(t, e[1..]) == R.Put(s, Passed(e, R.r1 - R.l1))
  {
    var d1, d2 := R.r1 - R.l1, R.r2 - R.l2;
    var p := Passed(e, d1);
    var Q := R.(l2 := R.l2 + 1);
    var u, v := Q.Put(t, e[1..]), R.Put(s, p);
    hide Ranges.Put;
    forall k: nat | k < |s| ensures u[k] == v[k] {
      PutAt(Q, t, e[1..], k);
      PutAt(R, s, p, k);
      if R.l1 <= k < R.r1 {
        assert p[k - R.l1] == e[1 + (k - R.l1)];
      } else if R.l2 < k < R.r2 {
        assert p[k - R.l2 + d1] == e[k - R.l2 + d1];
      } else if R.l3 <= k < R.r3 {
        assert p[k - R.l3 + d1 + d2] == e[k - R.l3 + d1 + d2];
      }
    }
  }

  lemma ThreeParts<T>(e: seq<T>, A: seq<T>, B: seq<T>, C: seq<T>)
    requires |e| == |A| + |B| + |C|
    requires A + B + C == Current(e, |A|, |e| - |A|)
    ensures B + C + A == e
    ensures B != [] ==> B[0] == e[0] && B[1..] + C + A == e[1..]
  {
    var m := |e| - |A|;
    var W, c := B + C, A + B + C;
    assert c[..|A|] == A && c[|A|..] == W;
    assert c[..|A|] == e[m..] && c[|A|..] == e[..m];
    assert B + C + A == W + A == e;
    if B != [] {
      assert B[1..] + C + A == (B + C + A)[1..];
    }
  }

  /** The three-range counterparts, for combine_discontinuous3_. */
  lemma TurnBack<T>(R: Ranges, s: seq<T>, e: seq<T>, t: seq<T>)
    requires R.Fits(|s|) && |e| == R.Size()
    requires t == R.Put(s, Current(e, R.r1 - R.l1, |e| - (R.r1 - R.l1)))
    ensures Turned(t, R) == R.Put(s, e)
  {
    hide Current, Ranges.Put;
    var c := Current(e, R.r1 - R.l1, |e| - (R.r1 - R.l1));
    GetPut(R, s, c);
    ThreeParts(e, t[R.l1..R.r1], t[R.l2..R.r2], t[R.l3..R.r3]);
    PutPut(R, s, c, e);
  }

  lemma TurnPassed<T>(R: Ranges, s: seq<T>, e: seq<T>, t: seq<T>)
    requires R.Fits(|s|) && |e| == R.Size() && R.l1 < R.r1 && R.l2 < R.r2
    requires t == R.Put(s, Current(e, R.r1 - R.l1, |e| - (R.r1 - R.l1)))
    ensures Turned(t, R.(l2 := R.l2 + 1)) == R.Put(s, Passed(e, R.r1 - R.l1))
  {
    hide Current, Passed, Ranges.Put;
    var c := Current(e, R.r1 - R.l1, |e| - (R.r1 - R.l1));
    var B := t[R.l2..R.r2];
    GetPut(R, s, c);
    ThreeParts(e, t[R.l1..R.r1], B, t[R.l3..R.r3]);
    assert B[1..] == t[R.l2 + 1..R.r2];
    PassedPut(R, s, e, t);
  }

  lemma JoinedIsTurned<T>(R: Ranges, t: seq<T>)
    requires R.Fits(|t|) && R.l2 == R.r2
    ensures Joined(t, R.l1, R.r1, R.l3, R.r3) == Turned(t, R)
  {
    JoinedIsPut(t, R.l1, R.r1, R.l3, R.r3);
    assert t[R.l2..R.r2] + t[R.l3..R.r3] + t[R.l1..R.r1] == t[R.l3..R.r3] + t[R.l1..R.r1];
  }

  /** The visits over the contents from the j-th one on. */
  lemma VisitsOverNext<T>(f: Functor, R: Ranges, s: seq<T>, cs: seq<seq<T>>, j: nat)
    requires f.Fits(|s|) && R.Fits(|s|) && AllSized(cs, R.Size()) && j < |cs|
    ensures VisitsOver(f, R, s, cs[j..]) == Visits(f, R.Put(s, cs[j])) + VisitsOver(f, R, s, cs[j + 1..])
  {
    hide Visits, VisitsAll, Ranges.Put;
    assert cs[j..] == [cs[j]] + cs[j + 1..];
    VisitsOverConcat(f, R, s, [cs[j]], cs[j + 1..]);
    VisitsOverOne(f, R, s, cs[j]);
  }

  lemma VisitsOverNone<T>(f: Functor, R: Ranges, s: seq<T>)
    requires f.Fits(|s|) && R.Fits(|s|)
    ensures VisitsOver(f, R, s, []) == []
  {}

  /** The joined content while the permutations headed by e[j] are shown. */
  function Heading<T>(e: seq<T>, j: nat): (c: seq<T>)
    requires j < |e|
    ensures |c| == |e| && c[0] == e[j] && c[1..] == Without(e, j)
  {
    [e[j]] + Without(e, j)
  }

  lemma HeadingStep<T>(e: seq<T>, j: nat)
    requires j + 1 < |e|
    ensures Swapped(Heading(e, j), 0, j + 1) == Heading(e, j + 1)
  {}

  lemma HeadingEnds<T>(e: seq<T>)
    requires 1 <= |e|
    ensures Heading(e, 0) == e
    ensures [e[|e| - 1]] + Reversed(Without(e, |e| - 1)) == Reversed(e)
  {
    assert Without(e, |e| - 1) == e[..|e| - 1];
  }

  lemma ReversedTwice<T>(e: seq<T>)
    ensures Reversed(Reversed(e)) == e
  {}

  /** Fixing the head of a range. */
  lemma OneRest<T>(l: nat, r: nat, s: seq<T>, c: seq<T>, d: seq<T>)
    requires l < r <= |s| && |c| == r - l && |d| == r - l - 1
    ensures One(l + 1, r).Get(One(l, r).Put(s, c)) == c[1..]
    ensures One(l + 1, r).Put(One(l, r).Put(s, c), d) == One(l, r).Put(s, [c[0]] + d)
  {}

  lemma VisitsOverHeading<T>(f: Functor, l: nat, r: nat, s: seq<T>, e: seq<T>, j: nat)
    requires f.Fits(|s|) && l < r <= |s| && |e| == r - l && j < |e|
    ensures VisitsOver(f, One(l + 1, r), One(l, r).Put(s, Heading(e, j)), Perms(Without(e, j)))
         == VisitsOver(f, One(l, r), s, PermsHeaded(e, j))
  {
    hide Functor.Fits, Perms, Ranges.Put, Visits, VisitsAll;
    var xs := Perms(Without(e, j));
    var t := One(l, r).Put(s, Heading(e, j));
    var us, vs := PutAll(One(l + 1, r), t, xs), PutAll(One(l, r), s, PermsHeaded(e, j));
    forall i | 0 <= i < |xs| ensures us[i] == vs[i] {
      OneRest(l, r, s, Heading(e, j), xs[i]);
      assert InsertAt([e[j]], 0, xs[i]) == [e[j]] + xs[i];
    }
    assert us == vs && |t| == |s|;
    assert VisitsOver(f, One(l + 1, r), t, xs) == VisitsAll(f, |s|, us);
  }

  lemma Prepended<T>(h: T, u: seq<T>, v: seq<T>)
    ensures InsertAll([h], 0, [u]) == [[h] + u]
    ensures InsertAll([h], 0, [u, v]) == [[h] + u, [h] + v]
  {
    assert InsertAt([h], 0, u) == [h] + u && InsertAt([h], 0, v) == [h] + v;
  }

  lemma Perms2<T>(x: T, y: T)
    ensures Perms([x, y]) == [[x, y], [y, x]]
  {
    var e := [x, y];
    assert Without(e, 0) == [y] && Without(e, 1) == [x];
    Prepended(x, [y], [y]);
    Prepended(y, [x], [x]);
    assert [x] + [y] == [x, y] && [y] + [x] == [y, x];
    assert Perms([x]) == [[x]] && Perms([y]) == [[y]];
    assert PermsHeaded(e, 0) == [[x, y]] && PermsHeaded(e, 1) == [[y, x]];
    assert PermsFrom(e, 2) == [] && PermsFrom(e, 1) == [[y, x]] + PermsFrom(e, 2);
  }

  lemma Perms3<T>(x: T, y: T, z: T)
    ensures Perms([x, y, z]) == [[x, y, z], [x, z, y], [y, x, z], [y, z, x], [z, x, y], [z, y, x]]
  {
    var e := [x, y, z];
    assert Without(e, 0) == [y, z] && Without(e, 1) == [x, z] && Without(e, 2) == [x, y];
    Perms2(y, z);
    Perms2(x, z);
    Perms2(x, y);
    Prepended(x, [y, z], [z, y]);
    Prepended(y, [x, z], [z, x]);
    Prepended(z, [x, y], [y, x]);
    assert [x] + [y, z] == [x, y, z] && [x] + [z, y] == [x, z, y];
    assert [y] + [x, z] == [y, x, z] && [y] + [z, x] == [y, z, x];
    assert [z] + [x, y] == [z, x, y] && [z] + [y, x] == [z, y, x];
    assert PermsHeaded(e, 0) == [[x, y, z], [x, z, y]];
    assert PermsHeaded(e, 1) == [[y, x, z], [y, z, x]];
    assert PermsHeaded(e, 2) == [[z, x, y], [z, y, x]];
    assert PermsFrom(e, 3) == [] && PermsFrom(e, 2) == PermsHeaded(e, 2) + PermsFrom(e, 3);
    assert PermsFrom(e, 1) == PermsHeaded(e, 1) + PermsFrom(e, 2);
    assert PermsFrom(e, 0) == PermsHeaded(e, 0) + PermsFrom(e, 1);
  }

  lemma VisitsOverHeadings<T>(f: Functor, R: Ranges, s: seq<T>, e: seq<T>, j: nat)
    requires f.Fits(|s|) && R.Fits(|s|) && |e| == R.Size() && j < |e|
    ensures VisitsOver(f, R, s, PermsFrom(e, j))
         == VisitsOver(f, R, s, PermsHeaded(e, j)) + VisitsOver(f, R, s, PermsFrom(e, j + 1))
  {
    hide Visits, VisitsAll, VisitsOver, Ranges.Put, Perms, PermsHeaded;
    VisitsOverConcat(f, R, s, PermsHeaded(e, j), PermsFrom(e, j + 1));
  }

  lemma PermsAreHeadings<T>(e: seq<T>)
    requires |e| > 1
    ensures Perms(e) == PermsFrom(e, 0) && PermsFrom(e, |e|) == []
  {}

  lemma PermsTrivial<T>(e: seq<T>)
    requires |e| <= 1
    ensures Perms(e) == [e] && Reversed(e) == e
  {}

  lemma PermsTrivialOrNot<T>(e: seq<T>)
    ensures |e| <= 1 ==> Reversed(e) == e
    ensures |e| == 2 ==> Swapped(Reversed(e), 0, 1) == e
    ensures |e| == 3 ==> Swapped(Reversed(e), 0, 2) == e
  {}

  lemma OneGet<T>(l: nat, r: nat, s: seq<T>)
    requires l <= r <= |s|
    ensures One(l, r).Get(s) == s[l..r]
  {}

  /** The swaps and the undo of reversible_permutation. */
  lemma SlideStep<T>(s: seq<T>, l: nat, i: nat)
    requires l + i + 1 < |s|
    ensures Swapped(Slide(s, l, i), l + i, l + i + 1) == Slide(s, l, i + 1)
  {}

  lemma SlideStart<T>(s: seq<T>, l: nat)
    requires l < |s|
    ensures Slide(s, l, 0) == s
  {}

  lemma SlideUndo<T>(s: seq<T>, l: nat, i: nat)
    requires l + i < |s|
    ensures Rotated(Slide(s, l, i), l, l + i, l + i + 1) == s
  {}

  lemma SlideAt<T>(s: seq<T>, l: nat, i: nat, k: nat)
    requires l + i < |s| && k < |s|
    ensures Slide(s, l, i)[k] == if l <= k < l + i then s[k + 1] else if k == l + i then s[l] else s[k]
  {}

  /** The two reversals that undo the odd case. */
  lemma SlideUndoTwice<T>(s: seq<T>, l: nat, m: nat, t: seq<T>, u: seq<T>, v: seq<T>)
    requires l + 2 <= m < |s|
    requires t == Slide(Slide(s, l, m - l), l, m - l - 1)
    requires u == One(l, m - 1).Put(t, Reversed(t[l..m - 1]))
    requires v == One(l, m + 1).Put(u, Reversed(u[l..m + 1]))
    ensures v == s
  {
    forall k | 0 <= k < |s| ensures v[k] == s[k] {
      SlideUndoAt(s, l, m, t, u, v, k);
    }
  }

  lemma SlideUndoAt<T>(s: seq<T>, l: nat, m: nat, t: seq<T>, u: seq<T>, v: seq<T>, k: nat)
    requires l + 2 <= m < |s| && k < |s|
    requires t == Slide(Slide(s, l, m - l), l, m - l - 1)
    requires u == One(l, m - 1).Put(t, Reversed(t[l..m - 1]))
    requires v == One(l, m + 1).Put(u, Reversed(u[l..m + 1]))
    ensures v[k] == s[k]
  {
    hide Slide;
    if l <= k < m + 1 {
      TwiceReversed(s, l, m, t, u, v, k);
    } else {
      assert v[k] == u[k] == t[k];
      SlideAt(Slide(s, l, m - l), l, m - l - 1, k);
      SlideAt(s, l, m - l, k);
    }
  }

  lemma TwiceReversed<T>(s: seq<T>, l: nat, m: nat, t: seq<T>, u: seq<T>, v: seq<T>, k: nat)
    requires l + 2 <= m < |s| && l <= k <= m
    requires t == Slide(Slide(s, l, m - l), l, m - l - 1)
    requires u == One(l, m - 1).Put(t, Reversed(t[l..m - 1]))
    requires v == One(l, m + 1).Put(u, Reversed(u[l..m + 1]))
    ensures v[k] == s[k]
  {
    hide *;
    var k' := l + m - k;
    OnceReversed(u, l, m + 1, v, k);
    if l <= k' < m - 1 {
      OnceReversed(t, l, m - 1, u, k');
      SlidTwice(s, l, m, l + m - 2 - k');
    } else {
      NotReversed(t, l, m - 1, u, k');
      SlidTwice(s, l, m, k');
    }
  }

  /** The first element slid to the middle, and the second one before it. */
  lemma SlidTwice<T>(s: seq<T>, l: nat, m: nat, j: nat)
    requires l + 2 <= m < |s| && l <= j <= m
    ensures Slide(Slide(s, l, m - l), l, m - l - 1)[j]
         == if j < m - 1 then s[j + 2] else if j == m - 1 then s[l + 1] else s[l]
  {
    hide Slide;
    SlideAt(Slide(s, l, m - l), l, m - l - 1, j);
    SlideAt(s, l, m - l, if j < m - 1 then j + 1 else if j == m - 1 then l else m);
  }

  lemma OnceReversed<T>(t: seq<T>, l: nat, r: nat, u: seq<T>, k: nat)
    requires l <= k < r <= |t| && u == One(l, r).Put(t, Reversed(t[l..r]))
    ensures u[k] == t[l + r - 1 - k]
  {}

  lemma NotReversed<T>(t: seq<T>, l: nat, r: nat, u: seq<T>, k: nat)
    requires l <= r <= |t| && k < |t| && !(l <= k < r) && u == One(l, r).Put(t, Reversed(t[l..r]))
    ensures u[k] == t[k]
  {}

  /** The block structure of the reversible enumeration. */
  lemma HeldFromStep<T>(f: Functor, s: seq<T>, l: nat, r: nat, i: nat)
    requires f.Fits(|s|) && l <= r <= |s| && 0 < i
    ensures i < (r - l) / 2 ==> HeldFrom(f, s, l, r, i) == Held(f, s, l, r, i) + HeldFrom(f, s, l, r, i + 1)
    ensures i >= (r - l) / 2 ==> HeldFrom(f, s, l, r, i) == []
  {
    hide Held;
  }

  lemma HeldBothFromStep<T>(f: Functor, mid: seq<T>, l: nat, m: nat, r: nat, i: nat)
    requires f.Fits(|mid|) && l + 2 <= m && m + 1 < r <= |mid|
    ensures i < m - l ==>
      HeldBothFrom(f, mid, l, m, r, i) == HeldBoth(f, mid, l, m, r, i) + HeldBothFrom(f, mid, l, m, r, i + 1)
    ensures i >= m - l ==> HeldBothFrom(f, mid, l, m, r, i) == []
  {
    hide HeldBoth;
  }
}
