/** In terms of original positions, for any elements, repeated or not: the
    combinations and the permutations come in lexicographic order. */
module Positions {
  import opened Slots
  import opened Arrangements
  import opened Functors
  import opened Choices

  /** The elements of `e` at the positions `u`. */
  function Pick<T>(e: seq<T>, u: seq<nat>): (c: seq<T>)
    requires Within(u, |e|)
    ensures |c| == |u|
  {
    seq(|u|, i requires 0 <= i < |u| => e[u[i]])
  }

  function Iota(n: nat): (u: seq<nat>)
    ensures |u| == n && Within(u, n) && Increasing(u)
  {
    seq(n, i requires 0 <= i < n => i)
  }

  ghost predicate Increasing(u: seq<nat>) {
    forall i, j :: 0 <= i < j < |u| ==> u[i] < u[j]
  }

  ghost predicate LexLess(a: seq<nat>, b: seq<nat>) {
    exists p: nat :: p < |a| && p < |b| && a[..p] == b[..p] && a[p] < b[p]
  }

  lemma WithinKept(u: seq<nat>, v: seq<nat>, n: nat)
    requires Within(u, n) && multiset(v) == multiset(u)
    ensures Within(v, n)
  {
    forall i | 0 <= i < |v| ensures v[i] < n {
      assert v[i] in multiset(u);
    }
  }

  /** The arrangements only depend on positions. */
  lemma {:induction false} CombosPick<T>(e: seq<T>, u: seq<nat>, k: nat, i: nat)
    requires Within(u, |e|) && k <= |u| && i < |Combos(u, k)|
    ensures |Combos(Pick(e, u), k)| == |Combos(u, k)| && Within(Combos(u, k)[i], |e|)
    ensures Combos(Pick(e, u), k)[i] == Pick(e, Combos(u, k)[i])
  {
    hide Combos;
    var c := Pick(e, u);
    CombosCount(u, k);
    CombosCount(c, k);
    CombosKeep(u, k, i);
    WithinKept(u, Combos(u, k)[i], |e|);
    if k == 0 || k == |u| {
      CombosTrivial(u, k);
      CombosTrivial(c, k);
    } else {
      var t := u[1..];
      assert c[1..] == Pick(e, t);
      CombosAt(u, k, i);
      CombosAt(c, k, i);
      CombosCount(t, k - 1);
      CombosCount(c[1..], k - 1);
      var n := |Combos(t, k - 1)|;
      if i < n {
        CombosPick(e, t, k - 1, i);
        InsertPick(e, u[0], 0, Combos(t, k - 1)[i]);
      } else {
        CombosPick(e, t, k, i - n);
        InsertPick(e, u[0], k, Combos(t, k)[i - n]);
      }
    }
  }

  lemma InsertPick<T>(e: seq<T>, h: nat, k: nat, x: seq<nat>)
    requires h < |e| && k <= |x| && Within(x, |e|)
    ensures Within(InsertAt([h], k, x), |e|)
    ensures Pick(e, InsertAt([h], k, x)) == InsertAt([e[h]], k, Pick(e, x))
  {
    assert x == x[..k] + x[k..];
    assert Pick(e, x)[..k] == Pick(e, x[..k]) && Pick(e, x)[k..] == Pick(e, x[k..]);
  }

  /** Each choice in increasing positions, the choices in lexicographic order. */
  lemma {:induction false} CombosIncreasing(u: seq<nat>, k: nat, i: nat)
    requires Increasing(u) && k <= |u| && i < |Combos(u, k)|
    ensures var x := Combos(u, k)[i]; Increasing(x[..k]) && Increasing(x[k..])
  {
    hide Combos, Increasing;
    if k == 0 || k == |u| {
      CombosTrivial(u, k);
      TrivialParts(u, k);
    } else {
      var t := u[1..];
      var n := |Combos(t, k - 1)|;
      CombosAt(u, k, i);
      TailIncreasing(u);
      hide InsertAt;
      if i < n {
        CombosIncreasing(t, k - 1, i);
        CombosKeep(t, k - 1, i);
        var x := Combos(t, k - 1)[i];
        Smaller(u, x, k - 1);
        InsertFirst(u[0], x, k);
        Prepended(u[0], x[..k - 1]);
      } else {
        CombosIncreasing(t, k, i - n);
        CombosKeep(t, k, i - n);
        var x := Combos(t, k)[i - n];
        Smaller(u, x, k);
        InsertBehind(u[0], x, k);
        Prepended(u[0], x[k..]);
      }
    }
  }

  lemma TrivialParts(u: seq<nat>, k: nat)
    requires Increasing(u) && (k == 0 || k == |u|)
    ensures Increasing(u[..k]) && Increasing(u[k..])
  {}

  lemma InsertFirst(h: nat, x: seq<nat>, k: nat)
    requires 0 < k <= |x| + 1
    ensures InsertAt([h], 0, x)[..k] == [h] + x[..k - 1] && InsertAt([h], 0, x)[k..] == x[k - 1..]
  {}

  lemma InsertBehind(h: nat, x: seq<nat>, k: nat)
    requires k <= |x|
    ensures InsertAt([h], k, x)[..k] == x[..k] && InsertAt([h], k, x)[k..] == [h] + x[k..]
  {}

  lemma Prepended(h: nat, y: seq<nat>)
    requires Increasing(y) && forall j :: 0 <= j < |y| ==> h < y[j]
    ensures Increasing([h] + y)
  {}

  lemma Smaller(u: seq<nat>, x: seq<nat>, k: nat)
    requires Increasing(u) && u != [] && multiset(x) == multiset(u[1..]) && k <= |x|
    ensures forall j :: 0 <= j < |x[..k]| ==> u[0] < x[..k][j]
    ensures forall j :: 0 <= j < |x[k..]| ==> u[0] < x[k..][j]
  {
    forall j | 0 <= j < |x| ensures u[0] < x[j] {
      assert x[j] in multiset(u[1..]);
    }
  }

  lemma {:induction false} CombosOrdered(u: seq<nat>, k: nat, i: nat, j: nat)
    requires Increasing(u) && k <= |u| && i < j < |Combos(u, k)|
    ensures LexLess(Combos(u, k)[i][..k], Combos(u, k)[j][..k])
  {
    hide Combos;
    if k == 0 || k == |u| {
      CombosTrivial(u, k);
    } else {
      var t := u[1..];
      var n := |Combos(t, k - 1)|;
      CombosFront(u, k, i);
      CombosFront(u, k, j);
      var a, b := Combos(u, k)[i][..k], Combos(u, k)[j][..k];
      if j < n {
        CombosOrdered(t, k - 1, i, j);
        LexPrepend(u[0], Combos(t, k - 1)[i][..k - 1], Combos(t, k - 1)[j][..k - 1]);
      } else if n <= i {
        CombosOrdered(t, k, i - n, j - n);
      } else {
        CombosKeep(t, k, j - n);
        Smaller(u, Combos(t, k)[j - n], k);
        assert a[..0] == b[..0] && a[0] < b[0];
      }
    }
  }

  lemma LexPrepend(h: nat, a: seq<nat>, b: seq<nat>)
    requires LexLess(a, b)
    ensures LexLess([h] + a, [h] + b)
  {
    var p: nat :| p < |a| && p < |b| && a[..p] == b[..p] && a[p] < b[p];
    assert ([h] + a)[..p + 1] == [h] + a[..p] && ([h] + b)[..p + 1] == [h] + b[..p];
    assert ([h] + a)[p + 1] < ([h] + b)[p + 1];
  }

  /** combine_discontinuous at depth 0 in terms of original positions: for any
      elements, each choice and what is left of it in their original order, the
      choices in strictly increasing lexicographic order, none missing. */
  lemma CombinationOrder<T>(e: seq<T>, k: nat, i: nat)
    requires k <= |e| && i < |Combos(e, k)|
    ensures |Combos(e, k)| == |Combos(Iota(|e|), k)| == Choose(|e|, k)
    ensures var p := Combos(Iota(|e|), k)[i];
      && Within(p, |e|) && Combos(e, k)[i] == Pick(e, p)
      && Increasing(p[..k]) && Increasing(p[k..]) && multiset(p) == multiset(Iota(|e|))
      && forall j :: i < j < |Combos(e, k)| ==> LexLess(p[..k], Combos(Iota(|e|), k)[j][..k])
  {
    var u := Iota(|e|);
    assert Pick(e, u) == e;
    CombosCount(e, k);
    CombosCount(u, k);
    CombosPick(e, u, k, i);
    CombosKeep(u, k, i);
    CombosIncreasing(u, k, i);
    forall j | i < j < |Combos(e, k)| ensures LexLess(Combos(u, k)[i][..k], Combos(u, k)[j][..k]) {
      CombosOrdered(u, k, i, j);
    }
  }

  lemma {:induction false} SortedUnique(a: seq<nat>, b: seq<nat>)
    requires Increasing(a) && Increasing(b) && multiset(a) == multiset(b)
    ensures a == b
    decreases |a|
  {
    assert |a| == |multiset(a)| == |multiset(b)| == |b|;
    if a == [] {
    } else {
      HeadLeast(a, b);
      HeadLeast(b, a);
      TailAlike(a, b);
      TailIncreasing(a);
      TailIncreasing(b);
      hide Increasing;
      SortedUnique(a[1..], b[1..]);
      assert a == [a[0]] + a[1..] && b == [b[0]] + b[1..];
    }
  }

  lemma HeadLeast(a: seq<nat>, b: seq<nat>)
    requires Increasing(a) && multiset(a) == multiset(b) && a != [] && b != []
    ensures a[0] <= b[0]
  {
    assert b[0] in multiset(a);
  }

  lemma TailAlike(a: seq<nat>, b: seq<nat>)
    requires multiset(a) == multiset(b) && a != [] && b != [] && a[0] == b[0]
    ensures multiset(a[1..]) == multiset(b[1..])
  {
    assert a == [a[0]] + a[1..] && b == [b[0]] + b[1..];
    assert multiset(a[1..]) == multiset(a) - multiset{a[0]};
    assert multiset(b[1..]) == multiset(b) - multiset{b[0]};
  }

  lemma TailIncreasing(a: seq<nat>)
    requires Increasing(a) && a != []
    ensures Increasing(a[1..])
  {}

  /** Every increasing sequence of k positions is shown. */
  lemma CombinationShown(n: nat, k: nat, q: seq<nat>) returns (i: nat)
    requires k <= n && |q| == k && Increasing(q) && Within(q, n)
    ensures i < |Combos(Iota(n), k)| && Combos(Iota(n), k)[i][..k] == q
  {
    var u := Iota(n);
    forall x ensures multiset(q)[x] <= multiset(u)[x] {
      if x in multiset(q) {
        IncreasingOnce(q, x);
        assert u[x] == x;
      }
    }
    i := CombosCover(u, k, multiset(q));
    CombosIncreasing(u, k, i);
    SortedUnique(Combos(u, k)[i][..k], q);
  }

  lemma {:induction false} IncreasingOnce(q: seq<nat>, x: nat)
    requires Increasing(q)
    ensures multiset(q)[x] <= 1
  {
    if q == [] {
    } else {
      assert q == [q[0]] + q[1..];
      IncreasingOnce(q[1..], x);
      assert q[0] !in q[1..];
    }
  }

  // ----- permutations

  lemma {:induction false} PermsPick<T>(e: seq<T>, u: seq<nat>, i: nat)
    requires Within(u, |e|) && i < |Perms(u)|
    ensures |Perms(Pick(e, u))| == |Perms(u)| && Within(Perms(u)[i], |e|)
    ensures Perms(Pick(e, u))[i] == Pick(e, Perms(u)[i])
    decreases |u|, |u| + 1
  {
    PermsCount(u);
    PermsCount(Pick(e, u));
    PermsKeep(u, i);
    WithinKept(u, Perms(u)[i], |e|);
    if |u| > 1 {
      PermsFromPick(e, u, 0, i);
    }
  }

  lemma {:induction false} PermsFromPick<T>(e: seq<T>, u: seq<nat>, j: nat, i: nat)
    requires Within(u, |e|) && j <= |u| && |u| > 1 && i < |PermsFrom(u, j)|
    ensures |PermsFrom(Pick(e, u), j)| == |PermsFrom(u, j)| && Within(PermsFrom(u, j)[i], |e|)
    ensures PermsFrom(Pick(e, u), j)[i] == Pick(e, PermsFrom(u, j)[i])
    decreases |u|, |u| - j
  {
    var c, w := Pick(e, u), Without(u, j);
    var hs := PermsHeaded(u, j);
    PermsFromKeep(u, j, i);
    WithinKept(u, PermsFrom(u, j)[i], |e|);
    PermsFromCount(u, j);
    PermsFromCount(c, j);
    PermsCount(w);
    PermsCount(Without(c, j));
    assert Without(c, j) == Pick(e, w);
    if i < |hs| {
      PermsPick(e, w, i);
      InsertPick(e, u[j], 0, Perms(w)[i]);
      assert PermsHeaded(c, j)[i] == InsertAt([c[j]], 0, Perms(Without(c, j))[i]);
    } else {
      PermsFromPick(e, u, j + 1, i - |hs|);
    }
  }

  lemma {:induction false} PermsOrdered(u: seq<nat>, i: nat, k: nat)
    requires Increasing(u) && i < k < |Perms(u)|
    ensures LexLess(Perms(u)[i], Perms(u)[k])
    decreases |u|, |u| + 1
  {
    if |u| > 1 {
      PermsFromOrdered(u, 0, i, k);
    }
  }

  lemma {:induction false} PermsFromOrdered(u: seq<nat>, j: nat, i: nat, k: nat)
    requires Increasing(u) && j <= |u| && |u| > 1 && i < k < |PermsFrom(u, j)|
    ensures LexLess(PermsFrom(u, j)[i], PermsFrom(u, j)[k])
    decreases |u|, |u| - j
  {
    hide Perms, PermsFrom, PermsHeaded;
    PermsFromAt(u, j, i);
    var w, n := Without(u, j), |PermsHeaded(u, j)|;
    PermsFromAt(u, j, k);
    if k < n {
      PermsOrdered(w, i, k);
      LexPrepend(u[j], Perms(w)[i], Perms(w)[k]);
    } else if n <= i {
      PermsFromOrdered(u, j + 1, i - n, k - n);
    } else {
      IncreasingDistinct(u);
      PermsFromDistinct(u, j + 1);
      var a, b := PermsFrom(u, j)[i], PermsFrom(u, j + 1)[k - n];
      assert b[0] in u[j + 1..];
      assert a[0] == u[j] && a[..0] == b[..0] && a[0] < b[0];
    }
  }

  lemma IncreasingDistinct(u: seq<nat>)
    requires Increasing(u)
    ensures NoDup(u)
  {}

  /** permute in terms of original positions: for any elements, every order of the
      positions, in strictly increasing lexicographic order. */
  lemma PermutationOrder<T>(e: seq<T>, i: nat)
    requires i < |Perms(e)|
    ensures |Perms(e)| == |Perms(Iota(|e|))| == Factorial(|e|)
    ensures var p := Perms(Iota(|e|))[i];
      && Within(p, |e|) && Perms(e)[i] == Pick(e, p) && multiset(p) == multiset(Iota(|e|))
      && forall j :: i < j < |Perms(e)| ==> LexLess(p, Perms(Iota(|e|))[j])
  {
    var u := Iota(|e|);
    assert Pick(e, u) == e;
    PermsCount(e);
    PermsCount(u);
    PermsPick(e, u, i);
    PermsKeep(u, i);
    forall j | i < j < |Perms(e)| ensures LexLess(Perms(u)[i], Perms(u)[j]) {
      PermsOrdered(u, i, j);
    }
  }
}
