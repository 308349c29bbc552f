/** How often the for_each_* algorithms call the callback: as often as the
    count_each_* functions say. */
module CallCounts {
  import opened Slots
  import opened Arith
  import opened Arrangements
  import opened Functors
  import opened Choices
  import opened Coverage
  import opened ForEach
  import opened Counting

  lemma {:induction false} VisitsAllCount<T>(f: Functor, n: nat, X: seq<seq<T>>, c: nat)
    requires f.Fits(n) && AllSized(X, n)
    requires forall i :: 0 <= i < |X| ==> |Visits(f, X[i])| == c
    ensures |VisitsAll(f, n, X)| == |X| * c
    decreases |X|
  {
    hide Visits;
    if X == [] {
    } else {
      forall i | 0 <= i < |X| - 1 ensures |Visits(f, X[1..][i])| == c {
        assert X[1..][i] == X[i + 1];
      }
      VisitsAllCount(f, n, X[1..], c);
      Distributes(1, |X| - 1, c);
    }
  }

  lemma PermuteCount<T>(g: Functor, l: nat, r: nat, s: seq<T>, c: nat)
    requires g.Fits(|s|) && l <= r <= |s|
    requires forall x: seq<T> :: |x| == |s| ==> |Visits(g, x)| == c
    ensures |Visits(Permute(g, l, r), s)| == Factorial(r - l) * c
  {
    hide Visits, VisitsAll, Perms, Factorial, Ranges.Put, Ranges.Get;
    VisitsPermute(g, l, r, s);
    PermsCount(One(l, r).Get(s));
    VisitsAllCount(g, |s|, PutAll(One(l, r), s, Perms(One(l, r).Get(s))), c);
  }

  lemma CombineCount<T>(g: Functor, R: Ranges, s: seq<T>, c: nat)
    requires g.Fits(|s|) && R.Fits(|s|) && R == Two(R.l1, R.r1, R.l2, R.r2)
    requires forall x: seq<T> :: |x| == |s| ==> |Visits(g, x)| == c
    ensures |Visits(Combine(g, R), s)| == Choose(R.Size(), R.r1 - R.l1) * c
  {
    hide Visits, VisitsAll, Combos, Choose, Ranges.Put, Ranges.Get;
    var cs := Combos(R.Get(s), R.r1 - R.l1);
    VisitsCombine(g, R, s);
    CombosCount(R.Get(s), R.r1 - R.l1);
    VisitsAllCount(g, |s|, PutAll(R, s, cs), c);
  }

  lemma {:induction false} Combos3Count<T>(e: seq<T>, k: nat, m: nat)
    requires 1 <= k && k + m < |e|
    ensures |Combos3Tail(e, k, m)| == Choose(|e|, k)
  {
    if m == 0 {
      CombosCount(e, k);
    } else if k == 1 {
      ChooseOne(|e|);
    } else {
      hide *;
      Pascal(|e|, k);
      Combos3IsTail(e, k, m);
      Combos3Size(e, k, m);
      Combos3Count(e[1..], k - 1, m);
      Combos3Count(e[1..], k, m - 1);
    }
  }

  lemma UserCount<T>(x: seq<T>)
    ensures |Visits(User, x)| == 1
  {}

  lemma Permute1Count<T>(l: nat, r: nat, s: seq<T>)
    requires l <= r <= |s|
    ensures |Visits(Permute(User, l, r), s)| == Factorial(r - l)
  {
    hide Visits;
    forall x: seq<T> | |x| == |s| ensures |Visits(User, x)| == 1 {
      UserCount(x);
    }
    PermuteCount(User, l, r, s, 1);
  }

  lemma Rev2Count<T>(l1: nat, r1: nat, l2: nat, r2: nat, s: seq<T>)
    requires l1 <= r1 <= l2 <= r2 <= |s|
    ensures |Visits(Rev2(User, l1, r1, l2, r2), s)| == Factorial(r1 - l1) * Factorial(r2 - l2)
  {
    hide Visits, Factorial;
    forall x: seq<T> | |x| == |s| ensures |Visits(Permute(User, l2, r2), x)| == Factorial(r2 - l2) {
      Permute1Count(l2, r2, x);
    }
    PermuteCount(Permute(User, l2, r2), l1, r1, s, Factorial(r2 - l2));
  }

  lemma PairCount<T>(R: Ranges, s: seq<T>)
    requires R.Fits(|s|) && R == Two(R.l1, R.r1, R.l2, R.r2)
    ensures |Visits(Pair(User, R), s)| == Factorial(R.Size())
  {
    hide Visits, Factorial, Choose;
    var d1, d2 := R.r1 - R.l1, R.r2 - R.l2;
    var g := Rev2(User, R.l1, R.r1, R.l2, R.r2);
    forall x: seq<T> | |x| == |s| ensures |Visits(g, x)| == Factorial(d1) * Factorial(d2) {
      Rev2Count(R.l1, R.r1, R.l2, R.r2, x);
    }
    CombineCount(g, R, s, Factorial(d1) * Factorial(d2));
    ChooseFactorial(d1 + d2, d1);
    Assoc(Choose(d1 + d2, d1), Factorial(d1), Factorial(d2));
  }

  lemma Inner3Count<T>(R: Ranges, s: seq<T>)
    requires R.Fits(|s|)
    ensures |Visits(Inner3(User, R), s)| == Factorial(R.r1 - R.l1) * Factorial((R.r2 - R.l2) + (R.r3 - R.l3))
  {
    hide Visits, Factorial, Choose;
    var d1, d2, d3 := R.r1 - R.l1, R.r2 - R.l2, R.r3 - R.l3;
    var c := Factorial(d2) * Factorial(d3);
    var g := Rev2(User, R.l2, R.r2, R.l3, R.r3);
    forall x: seq<T> | |x| == |s| ensures |Visits(Rev3(User, R), x)| == Factorial(d1) * c {
      forall z: seq<T> | |z| == |s| ensures |Visits(g, z)| == c {
        Rev2Count(R.l2, R.r2, R.l3, R.r3, z);
      }
      PermuteCount(g, R.l1, R.r1, x, c);
    }
    CombineCount(Rev3(User, R), Back(R), s, Factorial(d1) * c);
    ChooseFactorial(d2 + d3, d2);
    Assoc(Choose(d2 + d3, d2), Factorial(d2), Factorial(d3));
    TakeOut(Choose(d2 + d3, d2), Factorial(d1), c);
  }

  lemma TakeOut(a: nat, b: nat, c: nat)
    ensures a * (b * c) == b * (a * c)
  {}

  lemma ThreeCount<T>(R: Ranges, s: seq<T>)
    requires R.Fits(|s|) && Proper3(R)
    ensures |Visits3(User, s, R)| == Factorial(R.Size())
  {
    hide Visits, VisitsAll, Combos3, Factorial, Choose, Ranges.Put, Ranges.Get;
    var n, d1 := R.Size(), R.r1 - R.l1;
    var e := R.Get(s);
    var c := Factorial(d1) * Factorial(n - d1);
    var X := PutAll(R, s, Combos3(e, d1, R.r2 - R.l2));
    assert Combos3(e, d1, R.r2 - R.l2) == Combos3Tail(e, d1, R.r2 - R.l2);
    Combos3Count(e, d1, R.r2 - R.l2);
    forall i | 0 <= i < |X| ensures |Visits(Inner3(User, R), X[i])| == c {
      Inner3Count(R, X[i]);
    }
    VisitsAllCount(Inner3(User, R), |s|, X, c);
    ChooseFactorial(n, d1);
    Assoc(Choose(n, d1), Factorial(d1), Factorial(n - d1));
  }

  // ----- the reversible enumeration shows half of the permutations

  lemma {:induction false} HeldFromCount<T>(s: seq<T>, l: nat, r: nat, i: nat)
    requires l + 2 <= r <= |s| && 0 < i <= (r - l) / 2
    ensures |HeldFrom(User, s, l, r, i)| == ((r - l) / 2 - i) * Factorial(r - l - 1)
    decreases r - i
  {
    hide Held, HeldFrom, Factorial;
    HeldFromStep(User, s, l, r, i);
    var h := (r - l) / 2;
    if i >= h {
    } else {
      HeldCount(s, l, r, i);
      HeldFromCount(s, l, r, i + 1);
      Distributes(1, h - i - 1, Factorial(r - l - 1));
    }
  }

  lemma HeldCount<T>(s: seq<T>, l: nat, r: nat, i: nat)
    requires 0 < i && l + i < r <= |s|
    ensures |Held(User, s, l, r, i)| == Factorial(r - l - 1)
  {
    hide Visits, Factorial, Slide;
    PairCount(Two(l, l + i, l + i + 1, r), Slide(s, l, i));
  }

  lemma HeldBothCount<T>(mid: seq<T>, l: nat, m: nat, r: nat, i: nat)
    requires l + 2 <= m && m + 1 < r <= |mid| && i < m - l
    ensures |HeldBoth(User, mid, l, m, r, i)| == Factorial(r - l - 2)
  {
    hide Visits, Visits3, Factorial, Slide;
    if i == 0 {
      PairCount(Two(l + 1, m, m + 1, r), mid);
    } else if i == m - l - 1 {
      PairCount(Two(l, m - 1, m + 1, r), Slide(mid, l, i));
    } else {
      ThreeCount(Ranges(l, l + i, l + i + 1, m, m + 1, r), Slide(mid, l, i));
    }
  }

  lemma {:induction false} HeldBothFromCount<T>(mid: seq<T>, l: nat, m: nat, r: nat, i: nat)
    requires l + 2 <= m && m + 1 < r <= |mid| && i <= m - l
    ensures |HeldBothFrom(User, mid, l, m, r, i)| == (m - l - i) * Factorial(r - l - 2)
    decreases m - i
  {
    hide HeldBoth, HeldBothFrom, Factorial;
    HeldBothFromStep(User, mid, l, m, r, i);
    if i == m - l {
    } else {
      HeldBothCount(mid, l, m, r, i);
      HeldBothFromCount(mid, l, m, r, i + 1);
      Distributes(1, m - l - i - 1, Factorial(r - l - 2));
    }
  }

  lemma MiddleCount<T>(s: seq<T>, l: nat, r: nat)
    requires l + 3 <= r <= |s|
    ensures |MiddleVisits(User, s, l, r)| == if (r - l) % 2 == 0 then 0 else (r - l) / 2 * Factorial(r - l - 2)
  {
    hide HeldBothFrom, Slide;
    if (r - l) % 2 == 1 {
      if r - l == 3 {
        assert Factorial(1) == 1 * Factorial(0);
      } else {
        var m := l + (r - l) / 2;
        HeldBothFromCount(Slide(s, l, m - l), l, m, r, 0);
      }
    }
  }

  lemma ReversibleVisitsCount<T>(s: seq<T>, l: nat, r: nat)
    requires l + 2 <= r <= |s|
    ensures 2 * |ReversibleVisits(User, s, l, r)| == Factorial(r - l)
  {
    hide Visits, PermuteVisits, HeldFrom, MiddleVisits;
    if r - l == 2 {
      UserCount(s);
      assert Factorial(2) == 2 * Factorial(1) && Factorial(1) == 1 * Factorial(0);
    } else {
      VisitsPermute(User, l + 1, r, s);
      Permute1Count(l + 1, r, s);
      HeldFromCount(s, l, r, 1);
      MiddleCount(s, l, r);
      TwoHalves(r - l);
    }
  }

  /** The rounds of the first half, and of the middle if there is one. */
  lemma TwoHalves(n: nat)
    requires n >= 3
    ensures var h, f := n / 2, Factorial(n - 1);
      2 * (f + (h - 1) * f + if n % 2 == 0 then 0 else h * Factorial(n - 2)) == Factorial(n)
  {
    var h, f, g := n / 2, Factorial(n - 1), Factorial(n - 2);
    assert Factorial(n) == n * f && f == (n - 1) * g;
    hide Factorial;
    Distributes(1, h - 1, f);
    Assoc(2, h, f);
    if n % 2 == 1 {
      Assoc(2, h, g);
      Distributes(n - 1, 1, f);
    }
  }

  // ----- the entry points

  lemma SeenCount<T>(g: Functor, s: seq<T>, first: nat, mid: nat, last: nat, c: nat)
    requires g.Fits(|s|) && first <= mid <= last <= |s|
    requires forall x: seq<T> :: |x| == |s| ==> |Visits(g, x)| == c
    ensures |Seen(g, s, first, mid, last)| == Choose(last - first, mid - first) * c
  {
    hide *;
    SeenSize(g, s, first, mid, last);
    CombineCount(g, Two(first, mid, mid, last), s, c);
  }

  lemma SeenSize<T>(g: Functor, s: seq<T>, first: nat, mid: nat, last: nat)
    requires g.Fits(|s|) && first <= mid <= last <= |s|
    ensures var R := Two(first, mid, mid, last);
      && R.Fits(|s|) && R == Two(R.l1, R.r1, R.l2, R.r2) && R.Size() == last - first && R.r1 - R.l1 == mid - first
      && |Seen(g, s, first, mid, last)| == |Visits(Combine(g, R), s)|
  {
    hide Visits;
  }

  /** The number of calls of each for_each_* algorithm over d1 + d2 elements. */
  lemma CallsOfCombination<T>(s: seq<T>, first: nat, mid: nat, last: nat)
    requires first <= mid <= last <= |s|
    ensures |Seen(User, s, first, mid, last)| == Choose(last - first, mid - first)
  {
    hide Visits, Choose;
    forall x: seq<T> | |x| == |s| ensures |Visits(User, x)| == 1 {
      UserCount(x);
    }
    SeenCount(User, s, first, mid, last, 1);
  }

  lemma CallsOfPermutation<T>(s: seq<T>, first: nat, mid: nat, last: nat)
    requires first <= mid <= last <= |s|
    ensures |Seen(Permute(User, first, mid), s, first, mid, last)| == PermutationCount(mid - first, last - mid)
  {
    hide Visits, Choose, Factorial, PermutationCount, Seen;
    var d1, d2 := mid - first, last - mid;
    forall x: seq<T> | |x| == |s| ensures |Visits(Permute(User, first, mid), x)| == Factorial(d1) {
      Permute1Count(first, mid, x);
    }
    SeenCount(Permute(User, first, mid), s, first, mid, last, Factorial(d1));
    ChooseFactorial(d1 + d2, d1);
    PermutationClosed(d1, d2);
    var a, b := Choose(d1 + d2, d1) * Factorial(d1), PermutationCount(d1, d2);
    Regroup3(1, a, Factorial(d2));
    Regroup3(1, b, Factorial(d2));
    CancelFactor(Factorial(d2), a, b);
  }

  lemma CallsOfCircular<T>(s: seq<T>, first: nat, mid: nat, last: nat)
    requires first <= mid <= last <= |s|
    ensures |Seen(Circular(User, first, mid), s, first, mid, last)| == CircularCount(mid - first, last - mid)
  {
    var d1 := mid - first;
    var c := if d1 == 0 then 1 else Factorial(d1 - 1);
    assert Factorial(0) == 1;
    forall x: seq<T> | |x| == |s| ensures |Visits(Circular(User, first, mid), x)| == c {
      CircularVisitsCount(first, mid, x);
    }
    hide Visits, Factorial, Seen;
    SeenCount(Circular(User, first, mid), s, first, mid, last, c);
  }

  lemma CircularVisitsCount<T>(l: nat, r: nat, x: seq<T>)
    requires l <= r <= |x|
    ensures |Visits(Circular(User, l, r), x)| == if l == r then 1 else Factorial(r - l - 1)
  {
    if l + 1 < r {
      VisitsCircularMany(User, l, r, x);
      hide Visits;
      Permute1Count(l + 1, r, x);
    } else if l + 1 == r {
      VisitsCircularOne(l, r, x);
    } else {
      hide PermuteVisits, CombineVisits, ReversibleVisits;
    }
  }

  lemma CallsOfReversible<T>(s: seq<T>, first: nat, mid: nat, last: nat)
    requires first <= mid <= last <= |s|
    ensures |Seen(Reversible(User, first, mid), s, first, mid, last)| == ReversibleCount(mid - first, last - mid)
  {
    var d1, d2 := mid - first, last - mid;
    var c := if d1 <= 1 then 1 else Factorial(d1) / 2;
    forall x: seq<T> | |x| == |s| ensures |Visits(Reversible(User, first, mid), x)| == c {
      VisitsReversible(first, mid, x);
      if d1 <= 1 {
        hide MiddleVisits, HeldFrom, PermuteVisits;
        UserCount(x);
      } else {
        ReversibleVisitsCount(x, first, mid);
      }
    }
    hide Visits, Factorial, Seen, Falling, Choose;
    SeenCount(Reversible(User, first, mid), s, first, mid, last, c);
    HalfOfAll(d1, d2);
  }

  lemma HalfOfAll(d1: nat, d2: nat)
    ensures Choose(d1 + d2, d1) * (if d1 <= 1 then 1 else Factorial(d1) / 2) == ReversibleCount(d1, d2)
  {
    var n, g := Choose(d1 + d2, d1), Factorial(d2);
    ChooseFactorial(d1 + d2, d1);
    if d1 <= 1 {
      FallingFactorial(d1 + d2, d2);
      assert Factorial(1) == 1 * Factorial(0) == 1;
      CancelFactor(g, n, Falling(d1 + d2, d2));
    } else {
      FactorialEven(d1);
      ReversibleClosed(d1, d2);
      var h, v := Factorial(d1) / 2, ReversibleCount(d1, d2);
      hide Factorial, Choose, ReversibleCount;
      assert n * (2 * h) * g == 2 * g * (n * h) by { PullOut(n, 2, h, g); Regroup3(2, g, n * h); Assoc(2, n * h, g); }
      assert 2 * v * g == 2 * g * v by { Regroup3(2, v, g); }
      CancelFactor(2 * g, n * h, v);
    }
  }

  lemma CallsOfReversibleCircular<T>(s: seq<T>, first: nat, mid: nat, last: nat)
    requires first <= mid <= last <= |s|
    ensures |Seen(ReversibleCircular(User, first, mid), s, first, mid, last)|
         == ReversibleCircularCount(mid - first, last - mid)
  {
    var d1, d2 := mid - first, last - mid;
    var c := if d1 <= 2 then 1 else Factorial(d1 - 1) / 2;
    assert Factorial(0) == 1 && Factorial(1) == 1 * Factorial(0);
    forall x: seq<T> | |x| == |s| ensures |Visits(ReversibleCircular(User, first, mid), x)| == c {
      ReversibleCircularVisitsCount(first, mid, x);
    }
    if d1 > 2 {
      FactorialEven(d1 - 1);
      var n, h := Choose(d1 + d2, d1), Factorial(d1 - 1) / 2;
      assert n * (2 * h) == 2 * (n * h) by { PullOut(n, 2, h, 1); }
    }
    hide Visits, Factorial, Seen, Choose;
    SeenCount(ReversibleCircular(User, first, mid), s, first, mid, last, c);
  }

  lemma ReversibleCircularVisitsCount<T>(l: nat, r: nat, x: seq<T>)
    requires l <= r <= |x|
    ensures |Visits(ReversibleCircular(User, l, r), x)| == if r - l <= 2 then 1 else Factorial(r - l - 1) / 2
  {
    hide MiddleVisits, HeldFrom, PermuteVisits, CombineVisits;
    UserCount(x);
    if r - l > 2 {
      ReversibleVisitsCount(x, l + 1, r);
    }
  }
}
