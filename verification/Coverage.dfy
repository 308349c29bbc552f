/** Which array contents a functor visits, and that it visits none of them twice. */
module Coverage {
  import opened Slots
  import opened Arrangements
  import opened Functors
  import opened Choices

  ghost predicate SameOutside<T>(s: seq<T>, y: seq<T>, R: Ranges) {
    |y| == |s| && forall i {:trigger y[i]} :: 0 <= i < |s| && !R.Holds(i) ==> y[i] == s[i]
  }

  /** `y` is `s` with each of the ranges permuted on its own. */
  ghost predicate Parts<T>(s: seq<T>, y: seq<T>, R: Ranges)
    requires R.Fits(|s|)
  {
    && SameOutside(s, y, R)
    && multiset(y[R.l1..R.r1]) == multiset(s[R.l1..R.r1])
    && multiset(y[R.l2..R.r2]) == multiset(s[R.l2..R.r2])
    && multiset(y[R.l3..R.r3]) == multiset(s[R.l3..R.r3])
  }

  /** `y` is `s` with the joined content of the ranges permuted. */
  ghost predicate Rearranged<T>(s: seq<T>, y: seq<T>, R: Ranges)
    requires R.Fits(|s|)
  {
    SameOutside(s, y, R) && multiset(R.Get(y)) == multiset(R.Get(s))
  }

  function Tail(R: Ranges): Ranges { Ranges(R.l2, R.r2, R.l3, R.r3, R.r3, R.r3) }

  lemma {:induction false} InVisitsAll<T>(f: Functor, n: nat, X: seq<seq<T>>, y: seq<T>)
    requires f.Fits(n) && AllSized(X, n)
    ensures y in VisitsAll(f, n, X) <==> exists i :: 0 <= i < |X| && y in Visits(f, X[i])
    decreases |X|
  {
    hide Visits;
    if X == [] {
    } else {
      InVisitsAll(f, n, X[1..], y);
      if y in VisitsAll(f, n, X[1..]) {
        var i :| 0 <= i < |X| - 1 && y in Visits(f, X[1..][i]);
        assert X[i + 1] == X[1..][i];
      }
      if i :| 0 <= i < |X| && y in Visits(f, X[i]) {
        if i > 0 {
          assert X[1..][i - 1] == X[i];
        }
      }
    }
  }

  ghost predicate Apart<X>(a: seq<X>, b: seq<X>) {
    forall x <- a :: x !in b
  }

  lemma NoDupConcat<X>(a: seq<X>, b: seq<X>)
    requires NoDup(a) && NoDup(b) && Apart(a, b)
    ensures NoDup(a + b)
  {
    forall i, j | 0 <= i < j < |a + b| ensures (a + b)[i] != (a + b)[j] {
      if i < |a| <= j {
        assert (a + b)[i] in a && (a + b)[j] in b;
      }
    }
  }

  lemma {:induction false} OnceAll<T>(f: Functor, n: nat, X: seq<seq<T>>)
    requires f.Fits(n) && AllSized(X, n)
    requires forall i :: 0 <= i < |X| ==> NoDup(Visits(f, X[i]))
    requires forall i, j :: 0 <= i < j < |X| ==> Apart(Visits(f, X[i]), Visits(f, X[j]))
    ensures NoDup(VisitsAll(f, n, X))
    decreases |X|
  {
    hide Visits, NoDup;
    if X == [] {
      NoDupNone<seq<T>>();
    } else {
      var Y := X[1..];
      forall i | 0 <= i < |Y| ensures NoDup(Visits(f, Y[i])) {
        assert Y[i] == X[i + 1];
      }
      forall i, j | 0 <= i < j < |Y| ensures Apart(Visits(f, Y[i]), Visits(f, Y[j])) {
        assert Y[i] == X[i + 1] && Y[j] == X[j + 1];
      }
      OnceAll(f, n, Y);
      var v, w := Visits(f, X[0]), VisitsAll(f, n, Y);
      forall y <- v ensures y !in w {
        InVisitsAll(f, n, Y, y);
        forall i | 0 <= i < |Y| ensures y !in Visits(f, Y[i]) {
          assert Y[i] == X[i + 1] && Apart(Visits(f, X[0]), Visits(f, X[i + 1]));
        }
      }
      NoDupConcat(v, w);
      assert VisitsAll(f, n, X) == v + w;
    }
  }

  lemma NoDupNone<X>()
    ensures NoDup<X>([])
  {}

  /** Permuting the first range on top of a functor that permutes the others. */
  lemma InPermute<T>(g: Functor, R: Ranges, s: seq<T>, y: seq<T>)
    requires g.Fits(|s|) && R.Fits(|s|)
    requires forall z: seq<T>, x: seq<T> :: |z| == |s| ==> (x in Visits(g, z) <==> Parts(z, x, Tail(R)))
    ensures y in Visits(Permute(g, R.l1, R.r1), s) <==> Parts(s, y, R)
  {
    hide Visits, VisitsAll, Perms;
    var P := One(R.l1, R.r1);
    var e := P.Get(s);
    var X := PutAll(P, s, Perms(e));
    assert Visits(Permute(g, R.l1, R.r1), s) == VisitsAll(g, |s|, X) by { VisitsPermute(g, R.l1, R.r1, s); }
    InVisitsAll(g, |s|, X, y);
    OneGet(R.l1, R.r1, s);
    if y in VisitsAll(g, |s|, X) {
      var i :| 0 <= i < |X| && y in Visits(g, X[i]);
      PermsKeep(e, i);
      PartsGrow(R, s, Perms(e)[i], y);
    }
    if Parts(s, y, R) {
      var i := PermsCover(e, y[R.l1..R.r1]);
      PartsShrink(R, s, y);
      assert X[i] == P.Put(s, y[R.l1..R.r1]);
    }
  }

  lemma VisitsPermute<T>(g: Functor, l: nat, r: nat, s: seq<T>)
    requires g.Fits(|s|) && l <= r <= |s|
    ensures Visits(Permute(g, l, r), s) == PermuteVisits(g, s, l, r)
      == VisitsAll(g, |s|, PutAll(One(l, r), s, Perms(One(l, r).Get(s))))
  {
    hide VisitsAll, Perms, Ranges.Get;
  }

  lemma PartsGrow<T>(R: Ranges, s: seq<T>, c: seq<T>, y: seq<T>)
    requires R.Fits(|s|) && |c| == R.r1 - R.l1 && multiset(c) == multiset(s[R.l1..R.r1])
    requires Parts(One(R.l1, R.r1).Put(s, c), y, Tail(R))
    ensures Parts(s, y, R)
  {
    hide Ranges.Put;
    HeadReplaced(R, s, c);
    HeadKept(R, s, c, y);
  }

  /** Only the first range changes. */
  lemma HeadReplaced<T>(R: Ranges, s: seq<T>, c: seq<T>)
    requires R.Fits(|s|) && |c| == R.r1 - R.l1
    ensures var t := One(R.l1, R.r1).Put(s, c);
      && t[R.l1..R.r1] == c && t[R.r3..R.r3] == [] && (forall i :: 0 <= i < |s| && !(R.l1 <= i < R.r1) ==> t[i] == s[i])
      && t[R.l2..R.r2] == s[R.l2..R.r2] && t[R.l3..R.r3] == s[R.l3..R.r3]
  {}

  lemma PartsShrink<T>(R: Ranges, s: seq<T>, y: seq<T>)
    requires R.Fits(|s|) && Parts(s, y, R)
    ensures Parts(One(R.l1, R.r1).Put(s, y[R.l1..R.r1]), y, Tail(R))
  {
    hide Ranges.Put;
    var c := y[R.l1..R.r1];
    HeadReplaced(R, s, c);
    assert forall i :: R.l1 <= i < R.r1 ==> c[i - R.l1] == y[i];
    InHead(One(R.l1, R.r1).Put(s, c), c, R.l1, R.r1);
    assert y[R.r3..R.r3] == [];
  }

  lemma InHead<T>(t: seq<T>, c: seq<T>, l: nat, r: nat)
    requires l <= r <= |t| && t[l..r] == c
    ensures forall i :: l <= i < r ==> t[i] == c[i - l]
  {
    assert forall i :: l <= i < r ==> t[i] == t[l..r][i - l];
  }

  lemma HeadPut<T>(R: Ranges, s: seq<T>, c: seq<T>)
    requires R.Fits(|s|) && |c| == R.r1 - R.l1 && multiset(c) == multiset(s[R.l1..R.r1])
    ensures Parts(s, One(R.l1, R.r1).Put(s, c), One(R.l1, R.r1))
  {
    var t := One(R.l1, R.r1).Put(s, c);
    assert t[R.l1..R.r1] == c && t[R.r1..R.r1] == s[R.r1..R.r1];
  }

  lemma HeadKept<T>(R: Ranges, s: seq<T>, c: seq<T>, y: seq<T>)
    requires R.Fits(|s|) && |c| == R.r1 - R.l1
    requires Parts(One(R.l1, R.r1).Put(s, c), y, Tail(R))
    ensures y[R.l1..R.r1] == c
  {}

  lemma PermuteApart<T>(g: Functor, R: Ranges, s: seq<T>, c: seq<T>, d: seq<T>)
    requires g.Fits(|s|) && R.Fits(|s|) && |c| == |d| == R.r1 - R.l1 && c != d
    requires forall z: seq<T>, x: seq<T> :: |z| == |s| ==> (x in Visits(g, z) <==> Parts(z, x, Tail(R)))
    ensures Apart(Visits(g, One(R.l1, R.r1).Put(s, c)), Visits(g, One(R.l1, R.r1).Put(s, d)))
  {
    hide Visits, Parts, Ranges.Put;
    var u, v := One(R.l1, R.r1).Put(s, c), One(R.l1, R.r1).Put(s, d);
    forall y <- Visits(g, u) ensures y !in Visits(g, v) {
      assert Parts(u, y, Tail(R));
      if y in Visits(g, v) {
        assert Parts(v, y, Tail(R));
        HeadKept(R, s, c, y);
        HeadKept(R, s, d, y);
      }
    }
  }

  lemma PermuteOnce<T>(g: Functor, R: Ranges, s: seq<T>)
    requires g.Fits(|s|) && R.Fits(|s|) && NoDup(s[R.l1..R.r1])
    requires forall z: seq<T>, x: seq<T> :: |z| == |s| ==> (x in Visits(g, z) <==> Parts(z, x, Tail(R)))
    requires forall z: seq<T> :: |z| == |s| && Parts(s, z, One(R.l1, R.r1)) ==> NoDup(Visits(g, z))
    ensures NoDup(Visits(Permute(g, R.l1, R.r1), s))
  {
    hide Visits, VisitsAll, Perms, Parts, Ranges.Put;
    var P := One(R.l1, R.r1);
    var e := P.Get(s);
    var ps := Perms(e);
    var X := PutAll(P, s, ps);
    OneGet(R.l1, R.r1, s);
    PermsDistinct(e);
    forall i | 0 <= i < |X| ensures NoDup(Visits(g, X[i])) {
      PermsKeep(e, i);
      HeadPut(R, s, ps[i]);
    }
    forall i, j | 0 <= i < j < |X| ensures Apart(Visits(g, X[i]), Visits(g, X[j])) {
      assert ps[i] != ps[j];
      PermuteApart(g, R, s, ps[i], ps[j]);
    }
    OnceAll(g, |s|, X);
    VisitsPermute(g, R.l1, R.r1, s);
  }

  function Empty(r: nat): Ranges { Ranges(r, r, r, r, r, r) }

  lemma InUser<T>(r: nat, z: seq<T>, x: seq<T>)
    requires r <= |z|
    ensures x in Visits(User, z) <==> Parts(z, x, Empty(r))
    ensures NoDup(Visits(User, z))
  {
    if Parts(z, x, Empty(r)) {
      assert x == z;
    }
    assert x == z ==> x[r..r] == z[r..r];
  }

  lemma In1<T>(l: nat, r: nat, s: seq<T>, y: seq<T>)
    requires l <= r <= |s|
    ensures y in Visits(Permute(User, l, r), s) <==> Parts(s, y, One(l, r))
  {
    hide Visits, Parts;
    forall z: seq<T>, x: seq<T> | |z| == |s|
      ensures x in Visits(User, z) <==> Parts(z, x, Tail(One(l, r)))
    {
      InUser(r, z, x);
    }
    InPermute(User, One(l, r), s, y);
  }

  lemma In2<T>(l1: nat, r1: nat, l2: nat, r2: nat, s: seq<T>, y: seq<T>)
    requires l1 <= r1 <= l2 <= r2 <= |s|
    ensures y in Visits(Rev2(User, l1, r1, l2, r2), s) <==> Parts(s, y, Two(l1, r1, l2, r2))
  {
    hide Visits, Parts;
    forall z: seq<T>, x: seq<T> | |z| == |s|
      ensures x in Visits(Permute(User, l2, r2), z) <==> Parts(z, x, Tail(Two(l1, r1, l2, r2)))
    {
      In1(l2, r2, z, x);
    }
    InPermute(Permute(User, l2, r2), Two(l1, r1, l2, r2), s, y);
  }

  lemma In3<T>(R: Ranges, s: seq<T>, y: seq<T>)
    requires R.Fits(|s|)
    ensures y in Visits(Rev3(User, R), s) <==> Parts(s, y, R)
  {
    hide Visits, Parts;
    forall z: seq<T>, x: seq<T> | |z| == |s|
      ensures x in Visits(Rev2(User, R.l2, R.r2, R.l3, R.r3), z) <==> Parts(z, x, Tail(R))
    {
      In2(R.l2, R.r2, R.l3, R.r3, z, x);
    }
    InPermute(Rev2(User, R.l2, R.r2, R.l3, R.r3), R, s, y);
  }

  lemma Once1<T>(l: nat, r: nat, s: seq<T>)
    requires l <= r <= |s| && NoDup(s[l..r])
    ensures NoDup(Visits(Permute(User, l, r), s))
  {
    hide Visits, Parts, NoDup;
    forall z: seq<T>, x: seq<T> | |z| == |s|
      ensures x in Visits(User, z) <==> Parts(z, x, Tail(One(l, r)))
    {
      InUser(r, z, x);
    }
    forall z: seq<T> | |z| == |s| && Parts(s, z, One(l, r)) ensures NoDup(Visits(User, z)) {
      InUser(0, z, z);
    }
    PermuteOnce(User, One(l, r), s);
  }

  lemma Once2<T>(l1: nat, r1: nat, l2: nat, r2: nat, s: seq<T>)
    requires l1 <= r1 <= l2 <= r2 <= |s| && NoDup(s[l1..r1]) && NoDup(s[l2..r2])
    ensures NoDup(Visits(Rev2(User, l1, r1, l2, r2), s))
  {
    hide Visits, Parts, NoDup;
    var R := Two(l1, r1, l2, r2);
    forall z: seq<T>, x: seq<T> | |z| == |s|
      ensures x in Visits(Permute(User, l2, r2), z) <==> Parts(z, x, Tail(R))
    {
      In1(l2, r2, z, x);
    }
    forall z: seq<T> | |z| == |s| && Parts(s, z, One(l1, r1)) ensures NoDup(Visits(Permute(User, l2, r2), z)) {
      HeadOnly(R, s, z);
      Once1(l2, r2, z);
    }
    PermuteOnce(Permute(User, l2, r2), R, s);
  }

  lemma HeadOnly<T>(R: Ranges, s: seq<T>, z: seq<T>)
    requires R.Fits(|s|) && Parts(s, z, One(R.l1, R.r1))
    ensures z[R.l2..R.r2] == s[R.l2..R.r2] && z[R.l3..R.r3] == s[R.l3..R.r3] && |z| == |s|
  {}

  lemma Once3<T>(R: Ranges, s: seq<T>)
    requires R.Fits(|s|) && NoDup(s[R.l1..R.r1]) && NoDup(s[R.l2..R.r2]) && NoDup(s[R.l3..R.r3])
    ensures NoDup(Visits(Rev3(User, R), s))
  {
    hide Visits, Parts, NoDup;
    var g := Rev2(User, R.l2, R.r2, R.l3, R.r3);
    forall z: seq<T>, x: seq<T> | |z| == |s|
      ensures x in Visits(g, z) <==> Parts(z, x, Tail(R))
    {
      In2(R.l2, R.r2, R.l3, R.r3, z, x);
    }
    forall z: seq<T> | |z| == |s| && Parts(s, z, One(R.l1, R.r1)) ensures NoDup(Visits(g, z)) {
      HeadOnly(R, s, z);
      Once2(R.l2, R.r2, R.l3, R.r3, z);
    }
    PermuteOnce(g, R, s);
  }

  lemma NoDupSlices<X>(a: seq<X>, b: seq<X>, c: seq<X>)
    requires NoDup(a + b + c)
    ensures NoDup(a) && NoDup(b) && NoDup(c) && NoDup(b + c)
  {
    var w := a + b + c;
    assert forall i :: 0 <= i < |a| ==> a[i] == w[i];
    assert forall i :: 0 <= i < |b + c| ==> (b + c)[i] == w[|a| + i];
    assert forall i :: 0 <= i < |b| ==> b[i] == (b + c)[i];
    assert forall i :: 0 <= i < |c| ==> c[i] == (b + c)[|b| + i];
  }

  lemma VisitsCombine<T>(g: Functor, R: Ranges, s: seq<T>)
    requires g.Fits(|s|) && R.Fits(|s|) && R == Two(R.l1, R.r1, R.l2, R.r2)
    ensures Visits(Combine(g, R), s) == VisitsAll(g, |s|, PutAll(R, s, Combos(R.Get(s), R.r1 - R.l1)))
  {
    hide *;
    UnfoldCombine(g, R, s);
    UnfoldVisits(g, R, s);
  }

  lemma UnfoldVisits<T>(g: Functor, R: Ranges, s: seq<T>)
    requires g.Fits(|s|) && R.Fits(|s|)
    ensures CombineVisits(g, s, R) == VisitsAll(g, |s|, PutAll(R, s, Combos(R.Get(s), R.r1 - R.l1)))
  {
    hide VisitsAll, PutAll, Combos, Ranges.Put, Ranges.Get, Visits, Functor.Fits, AllSized;
  }

  lemma UnfoldCombine<T>(g: Functor, R: Ranges, s: seq<T>)
    requires g.Fits(|s|) && R.Fits(|s|) && R == Two(R.l1, R.r1, R.l2, R.r2)
    ensures Visits(Combine(g, R), s) == CombineVisits(g, s, R)
  {
    hide CombineVisits, PermuteVisits, ReversibleVisits, Ranges.Fits;
  }

  /** Permuting the parts of a joined content permutes the joined content. */
  lemma PartsJoin<T>(R: Ranges, s: seq<T>, c: seq<T>, y: seq<T>)
    requires R.Fits(|s|) && |c| == R.Size() && multiset(c) == multiset(R.Get(s))
    requires Parts(R.Put(s, c), y, R)
    ensures Rearranged(s, y, R)
    ensures multiset(y[R.l1..R.r1]) == multiset(c[..R.r1 - R.l1])
  {
    var t := R.Put(s, c);
    GetPut(R, s, c);
    assert c == t[R.l1..R.r1] + t[R.l2..R.r2] + t[R.l3..R.r3];
    assert c[..R.r1 - R.l1] == t[R.l1..R.r1];
  }

  lemma PartsSplit<T>(R: Ranges, s: seq<T>, c: seq<T>, y: seq<T>)
    requires R.Fits(|s|) && |c| == R.Size() && multiset(c) == multiset(R.Get(s)) && R.l3 == R.r3
    requires Rearranged(s, y, R) && multiset(c[..R.r1 - R.l1]) == multiset(y[R.l1..R.r1])
    ensures Parts(R.Put(s, c), y, R)
  {
    hide Ranges.Put, Ranges.Get, Ranges.Holds;
    var t := R.Put(s, c);
    GetPut(R, s, c);
    TwoParts(R, t);
    TwoParts(R, y);
    SplitCount(c, R.r1 - R.l1, t[R.l1..R.r1], t[R.l2..R.r2]);
    SplitCount(R.Get(y), R.r1 - R.l1, y[R.l1..R.r1], y[R.l2..R.r2]);
  }

  lemma TwoParts<T>(R: Ranges, t: seq<T>)
    requires R.Fits(|t|) && R.l3 == R.r3
    ensures R.Get(t) == t[R.l1..R.r1] + t[R.l2..R.r2] && t[R.l3..R.r3] == []
  {}

  lemma SplitCount<T>(c: seq<T>, k: nat, a: seq<T>, b: seq<T>)
    requires c == a + b && k == |a|
    ensures c[..k] == a && c[k..] == b && multiset(b) == multiset(c) - multiset(a)
  {}

  lemma FrontFits<T>(R: Ranges, s: seq<T>, y: seq<T>)
    requires R.Fits(|s|) && Rearranged(s, y, R)
    ensures |y| == |s| && multiset(y[R.l1..R.r1]) <= multiset(R.Get(s)) && |multiset(y[R.l1..R.r1])| == R.r1 - R.l1
  {
    assert R.Get(y) == y[R.l1..R.r1] + (y[R.l2..R.r2] + y[R.l3..R.r3]);
  }

  /** combine_discontinuous with a rev2 visits every arrangement of two ranges. */
  lemma InPair<T>(R: Ranges, s: seq<T>, y: seq<T>)
    requires R.Fits(|s|) && R == Two(R.l1, R.r1, R.l2, R.r2)
    ensures y in Visits(Pair(User, R), s) <==> Rearranged(s, y, R)
  {
    hide Visits, VisitsAll, Combos, Parts, Rearranged, Ranges.Put, Ranges.Get;
    var g := Rev2(User, R.l1, R.r1, R.l2, R.r2);
    var cs := Combos(R.Get(s), R.r1 - R.l1);
    var X := PutAll(R, s, cs);
    VisitsCombine(g, R, s);
    InVisitsAll(g, |s|, X, y);
    if y in VisitsAll(g, |s|, X) {
      var i :| 0 <= i < |X| && y in Visits(g, X[i]);
      In2(R.l1, R.r1, R.l2, R.r2, X[i], y);
      CombosKeep(R.Get(s), R.r1 - R.l1, i);
      PartsJoin(R, s, cs[i], y);
    }
    if Rearranged(s, y, R) {
      FrontFits(R, s, y);
      var i := CombosCover(R.Get(s), R.r1 - R.l1, multiset(y[R.l1..R.r1]));
      CombosKeep(R.Get(s), R.r1 - R.l1, i);
      PartsSplit(R, s, cs[i], y);
      In2(R.l1, R.r1, R.l2, R.r2, X[i], y);
    }
  }

  lemma OncePair<T>(R: Ranges, s: seq<T>)
    requires R.Fits(|s|) && R == Two(R.l1, R.r1, R.l2, R.r2) && NoDup(R.Get(s))
    ensures NoDup(Visits(Pair(User, R), s))
  {
    hide Visits, VisitsAll, Combos, Parts, Rearranged, NoDup, Ranges.Put, Ranges.Get;
    var g := Rev2(User, R.l1, R.r1, R.l2, R.r2);
    var e, k := R.Get(s), R.r1 - R.l1;
    var cs := Combos(e, k);
    var X := PutAll(R, s, cs);
    forall i | 0 <= i < |X| ensures NoDup(Visits(g, X[i])) {
      CombosKeep(e, k, i);
      NoDupMultiset(e, cs[i]);
      PutParts(R, s, cs[i]);
      Once2(R.l1, R.r1, R.l2, R.r2, X[i]);
    }
    forall i, j | 0 <= i < j < |X| ensures Apart(Visits(g, X[i]), Visits(g, X[j])) {
      forall y <- Visits(g, X[i]) ensures y !in Visits(g, X[j]) {
        if y in Visits(g, X[j]) {
          In2(R.l1, R.r1, R.l2, R.r2, X[i], y);
          In2(R.l1, R.r1, R.l2, R.r2, X[j], y);
          CombosKeep(e, k, i);
          CombosKeep(e, k, j);
          PartsJoin(R, s, cs[i], y);
          PartsJoin(R, s, cs[j], y);
          CombosDistinct(e, k, i, j);
        }
      }
    }
    OnceAll(g, |s|, X);
    VisitsCombine(g, R, s);
  }

  lemma PutParts<T>(R: Ranges, s: seq<T>, c: seq<T>)
    requires R.Fits(|s|) && |c| == R.Size() && NoDup(c)
    ensures var t := R.Put(s, c); NoDup(t[R.l1..R.r1]) && NoDup(t[R.l2..R.r2]) && NoDup(t[R.l3..R.r3])
  {
    var t := R.Put(s, c);
    GetPut(R, s, c);
    NoDupSlices(t[R.l1..R.r1], t[R.l2..R.r2], t[R.l3..R.r3]);
  }

  function Back(R: Ranges): Ranges { Two(R.l2, R.r2, R.l3, R.r3) }

  /** `y` is `z` with the first range permuted, and the other two permuted jointly. */
  ghost predicate InnerParts<T>(z: seq<T>, y: seq<T>, R: Ranges)
    requires R.Fits(|z|)
  {
    && SameOutside(z, y, R)
    && multiset(y[R.l1..R.r1]) == multiset(z[R.l1..R.r1])
    && multiset(Back(R).Get(y)) == multiset(Back(R).Get(z))
  }

  lemma BackPut<T>(R: Ranges, z: seq<T>, c: seq<T>)
    requires R.Fits(|z|) && |c| == Back(R).Size()
    ensures var t := Back(R).Put(z, c);
      SameOutside(z, t, R) && t[R.l1..R.r1] == z[R.l1..R.r1] && t[R.l2..R.r2] == c[..R.r2 - R.l2]
      && t[R.l3..R.r3] == c[R.r2 - R.l2..] && c == t[R.l2..R.r2] + t[R.l3..R.r3]
  {}

  lemma BackGet<T>(R: Ranges, z: seq<T>)
    requires R.Fits(|z|)
    ensures Back(R).Get(z) == z[R.l2..R.r2] + z[R.l3..R.r3]
    ensures R.Get(z) == z[R.l1..R.r1] + Back(R).Get(z)
  {}

  lemma InnerJoin<T>(R: Ranges, z: seq<T>, c: seq<T>, y: seq<T>)
    requires R.Fits(|z|) && |c| == Back(R).Size() && multiset(c) == multiset(Back(R).Get(z))
    requires Parts(Back(R).Put(z, c), y, R)
    ensures InnerParts(z, y, R) && multiset(y[R.l2..R.r2]) == multiset(c[..R.r2 - R.l2])
  {
    hide Ranges.Put, Ranges.Get;
    BackPut(R, z, c);
    BackGet(R, y);
  }

  lemma InnerSplit<T>(R: Ranges, z: seq<T>, c: seq<T>, y: seq<T>)
    requires R.Fits(|z|) && |c| == Back(R).Size() && multiset(c) == multiset(Back(R).Get(z))
    requires InnerParts(z, y, R) && multiset(y[R.l2..R.r2]) == multiset(c[..R.r2 - R.l2])
    ensures Parts(Back(R).Put(z, c), y, R)
  {
    hide Ranges.Put, Ranges.Get;
    BackPut(R, z, c);
    BackGet(R, y);
    var p, q := c[..R.r2 - R.l2], c[R.r2 - R.l2..];
    assert c == p + q;
    assert multiset(q) == multiset(c) - multiset(p);
    assert multiset(y[R.l3..R.r3]) == multiset(Back(R).Get(y)) - multiset(y[R.l2..R.r2]);
  }

  lemma InnerFront<T>(R: Ranges, z: seq<T>, y: seq<T>)
    requires R.Fits(|z|) && InnerParts(z, y, R)
    ensures |y| == |z| && multiset(y[R.l2..R.r2]) <= multiset(Back(R).Get(z))
    ensures |multiset(y[R.l2..R.r2])| == R.r2 - R.l2
  {
    BackGet(R, y);
  }

  lemma InnerIn<T>(R: Ranges, z: seq<T>, y: seq<T>, i: nat)
    requires R.Fits(|z|) && i < |Combos(Back(R).Get(z), R.r2 - R.l2)|
    ensures var c := Combos(Back(R).Get(z), R.r2 - R.l2)[i];
      && (y in Visits(Rev3(User, R), Back(R).Put(z, c)) ==> InnerParts(z, y, R))
      && (InnerParts(z, y, R) && multiset(c[..R.r2 - R.l2]) == multiset(y[R.l2..R.r2]) ==>
            y in Visits(Rev3(User, R), Back(R).Put(z, c)))
  {
    hide Visits, Combos, Parts, InnerParts, Ranges.Put, Ranges.Get;
    var c := Combos(Back(R).Get(z), R.r2 - R.l2)[i];
    In3(R, Back(R).Put(z, c), y);
    CombosKeep(Back(R).Get(z), R.r2 - R.l2, i);
    if Parts(Back(R).Put(z, c), y, R) {
      InnerJoin(R, z, c, y);
    }
    if InnerParts(z, y, R) {
      InnerFront(R, z, y);
      if multiset(c[..R.r2 - R.l2]) == multiset(y[R.l2..R.r2]) {
        InnerSplit(R, z, c, y);
      }
    }
  }

  lemma InnerShape(R: Ranges, n: nat)
    requires R.Fits(n)
    ensures var g, B := Rev3(User, R), Back(R);
      && Inner3(User, R) == Combine(g, B) && Inner3(User, R).Fits(n) && g.Fits(n) && B.Fits(n)
      && B == Two(B.l1, B.r1, B.l2, B.r2) && B.l1 == R.l2 && B.r1 == R.r2 && B.Size() >= B.r1 - B.l1
  {}

  lemma InInner3<T>(R: Ranges, z: seq<T>, y: seq<T>)
    requires R.Fits(|z|)
    ensures y in Visits(Inner3(User, R), z) <==> InnerParts(z, y, R)
  {
    hide *;
    var g, B := Rev3(User, R), Back(R);
    InnerShape(R, |z|);
    var e, k := B.Get(z), R.r2 - R.l2;
    var cs := Combos(e, k);
    var X := PutAll(B, z, cs);
    VisitsCombine(g, B, z);
    InVisitsAll(g, |z|, X, y);
    if y in VisitsAll(g, |z|, X) {
      var i :| 0 <= i < |X| && y in Visits(g, X[i]);
      InnerIn(R, z, y, i);
    }
    if InnerParts(z, y, R) {
      InnerFront(R, z, y);
      var i := CombosCover(e, k, multiset(y[R.l2..R.r2]));
      InnerIn(R, z, y, i);
    }
  }

  lemma OnceInner3<T>(R: Ranges, z: seq<T>)
    requires R.Fits(|z|) && NoDup(z[R.l1..R.r1]) && NoDup(Back(R).Get(z))
    ensures NoDup(Visits(Inner3(User, R), z))
  {
    hide Visits, VisitsAll, Combos, Parts, InnerParts, NoDup, Ranges.Put, Ranges.Get;
    var g, B := Rev3(User, R), Back(R);
    var e, k := B.Get(z), R.r2 - R.l2;
    var cs := Combos(e, k);
    var X := PutAll(B, z, cs);
    forall i | 0 <= i < |X| ensures NoDup(Visits(g, X[i])) {
      CombosKeep(e, k, i);
      NoDupMultiset(e, cs[i]);
      PutParts(B, z, cs[i]);
      BackPut(R, z, cs[i]);
      Once3(R, X[i]);
    }
    forall i, j | 0 <= i < j < |X| ensures Apart(Visits(g, X[i]), Visits(g, X[j])) {
      forall y <- Visits(g, X[i]) ensures y !in Visits(g, X[j]) {
        if y in Visits(g, X[j]) {
          In3(R, X[i], y);
          In3(R, X[j], y);
          CombosKeep(e, k, i);
          CombosKeep(e, k, j);
          InnerJoin(R, z, cs[i], y);
          InnerJoin(R, z, cs[j], y);
          CombosDistinct(e, k, i, j);
        }
      }
    }
    OnceAll(g, |z|, X);
    VisitsCombine(g, B, z);
  }

  lemma OuterJoin<T>(R: Ranges, s: seq<T>, c: seq<T>, y: seq<T>)
    requires R.Fits(|s|) && |c| == R.Size() && multiset(c) == multiset(R.Get(s))
    requires InnerParts(R.Put(s, c), y, R)
    ensures Rearranged(s, y, R) && multiset(y[R.l1..R.r1]) == multiset(c[..R.r1 - R.l1])
  {
    hide Ranges.Put, Ranges.Get;
    var t := R.Put(s, c);
    GetPut(R, s, c);
    BackGet(R, t);
    BackGet(R, y);
    assert c[..R.r1 - R.l1] == t[R.l1..R.r1];
  }

  lemma OuterSplit<T>(R: Ranges, s: seq<T>, c: seq<T>, y: seq<T>)
    requires R.Fits(|s|) && |c| == R.Size() && multiset(c) == multiset(R.Get(s))
    requires Rearranged(s, y, R) && multiset(y[R.l1..R.r1]) == multiset(c[..R.r1 - R.l1])
    ensures InnerParts(R.Put(s, c), y, R)
  {
    hide Ranges.Put, Ranges.Get;
    var t := R.Put(s, c);
    GetPut(R, s, c);
    BackGet(R, t);
    BackGet(R, y);
    assert c[..R.r1 - R.l1] == t[R.l1..R.r1];
    assert multiset(Back(R).Get(y)) == multiset(R.Get(y)) - multiset(y[R.l1..R.r1]);
    assert multiset(Back(R).Get(t)) == multiset(c) - multiset(t[R.l1..R.r1]);
  }

  /** Case i of the outer enumeration. */
  lemma OuterIn<T>(R: Ranges, s: seq<T>, y: seq<T>, i: nat)
    requires R.Fits(|s|) && Proper3(R) && i < |Combos3(R.Get(s), R.r1 - R.l1, R.r2 - R.l2)|
    ensures var c := Combos3(R.Get(s), R.r1 - R.l1, R.r2 - R.l2)[i];
      && (y in Visits(Inner3(User, R), R.Put(s, c)) ==> Rearranged(s, y, R))
      && (Rearranged(s, y, R) && multiset(y[R.l1..R.r1]) == multiset(c[..R.r1 - R.l1]) ==>
            y in Visits(Inner3(User, R), R.Put(s, c)))
  {
    hide Visits, Combos3, Rearranged, InnerParts, Ranges.Put, Ranges.Get;
    var e, k, m := R.Get(s), R.r1 - R.l1, R.r2 - R.l2;
    var c := Combos3(e, k, m)[i];
    assert Combos3(e, k, m) == Combos3Tail(e, k, m);
    InInner3(R, R.Put(s, c), y);
    Combos3Keep(e, k, m, i);
    if InnerParts(R.Put(s, c), y, R) {
      OuterJoin(R, s, c, y);
    }
    if Rearranged(s, y, R) {
      FrontFits(R, s, y);
      if multiset(y[R.l1..R.r1]) == multiset(c[..k]) {
        OuterSplit(R, s, c, y);
      }
    }
  }

  /** combine_discontinuous3 with a rev3 visits every arrangement of three ranges. */
  lemma InThree<T>(R: Ranges, s: seq<T>, y: seq<T>)
    requires R.Fits(|s|) && Proper3(R)
    ensures y in Visits3(User, s, R) <==> Rearranged(s, y, R)
  {
    hide Visits, VisitsAll, Combos3, Rearranged, InnerParts, Ranges.Put, Ranges.Get;
    var g := Inner3(User, R);
    var e, k, m := R.Get(s), R.r1 - R.l1, R.r2 - R.l2;
    var cs := Combos3(e, k, m);
    assert cs == Combos3Tail(e, k, m);
    var X := PutAll(R, s, cs);
    InVisitsAll(g, |s|, X, y);
    if y in VisitsAll(g, |s|, X) {
      var i :| 0 <= i < |X| && y in Visits(g, X[i]);
      OuterIn(R, s, y, i);
    }
    if Rearranged(s, y, R) {
      FrontFits(R, s, y);
      var i := Combos3Cover(e, k, m, multiset(y[R.l1..R.r1]));
      OuterIn(R, s, y, i);
    }
  }

  lemma OnceThree<T>(R: Ranges, s: seq<T>)
    requires R.Fits(|s|) && Proper3(R) && NoDup(R.Get(s))
    ensures NoDup(Visits3(User, s, R))
  {
    hide Visits, VisitsAll, Combos3, InnerParts, Rearranged, NoDup, Ranges.Put, Ranges.Get;
    var g := Inner3(User, R);
    var e, k, m := R.Get(s), R.r1 - R.l1, R.r2 - R.l2;
    var cs := Combos3(e, k, m);
    assert cs == Combos3Tail(e, k, m);
    var X := PutAll(R, s, cs);
    forall i | 0 <= i < |X| ensures NoDup(Visits(g, X[i])) {
      Combos3Keep(e, k, m, i);
      NoDupMultiset(e, cs[i]);
      PutParts(R, s, cs[i]);
      PutBack(R, s, cs[i]);
      OnceInner3(R, X[i]);
    }
    forall i, j | 0 <= i < j < |X| ensures Apart(Visits(g, X[i]), Visits(g, X[j])) {
      forall y <- Visits(g, X[i]) ensures y !in Visits(g, X[j]) {
        if y in Visits(g, X[j]) {
          InInner3(R, X[i], y);
          InInner3(R, X[j], y);
          Combos3Keep(e, k, m, i);
          Combos3Keep(e, k, m, j);
          OuterJoin(R, s, cs[i], y);
          OuterJoin(R, s, cs[j], y);
          Combos3Distinct(e, k, m, i, j);
        }
      }
    }
    OnceAll(g, |s|, X);
  }

  lemma PutBack<T>(R: Ranges, s: seq<T>, c: seq<T>)
    requires R.Fits(|s|) && |c| == R.Size() && NoDup(c)
    ensures NoDup(Back(R).Get(R.Put(s, c)))
  {
    hide Ranges.Put, Ranges.Get, NoDup;
    var t := R.Put(s, c);
    GetPut(R, s, c);
    BackGet(R, t);
    assert R.Get(t) == t[R.l1..R.r1] + t[R.l2..R.r2] + t[R.l3..R.r3];
    NoDupSlices(t[R.l1..R.r1], t[R.l2..R.r2], t[R.l3..R.r3]);
  }

  lemma NoDupRest<X>(x: seq<X>, l: nat, d: nat, r: nat)
    requires l + d <= r <= |x| && NoDup(x[l..r])
    ensures NoDup(x[l + d..r])
  {
    assert x[l + d..r] == x[l..r][d..];
  }
}
