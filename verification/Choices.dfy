/** The arrangement lists show every choice exactly once: each sub-collection of
    the given size for the combinations, each order for the permutations. */
module Choices {
  import opened Slots
  import opened Arrangements
  import opened Functors

  function Choose(n: nat, k: nat): nat
    requires k <= n
  {
    if k == 0 || k == n then 1 else Choose(n - 1, k - 1) + Choose(n - 1, k)
  }

  function Factorial(n: nat): (r: nat)
    ensures r > 0
  {
    if n == 0 then 1 else n * Factorial(n - 1)
  }

  lemma Pascal(n: nat, k: nat)
    requires 0 < k < n
    ensures Choose(n, k) == Choose(n - 1, k - 1) + Choose(n - 1, k)
  {}

  lemma {:induction false} CombosCount<T>(e: seq<T>, k: nat)
    requires k <= |e|
    ensures |Combos(e, k)| == Choose(|e|, k)
  {
    if k == 0 || k == |e| {
      CombosTrivial(e, k);
    } else {
      hide Combos, Choose;
      CombosCount(e[1..], k - 1);
      CombosCount(e[1..], k);
      CombosIs(e, k);
      Pascal(|e|, k);
    }
  }

  lemma {:induction false} PermsCount<T>(e: seq<T>)
    ensures |Perms(e)| == Factorial(|e|)
    decreases |e|, |e| + 1
  {
    if |e| == 1 {
      assert Factorial(1) == 1 * Factorial(0);
    } else if |e| > 1 {
      PermsFromCount(e, 0);
    }
  }

  lemma {:induction false} PermsFromCount<T>(e: seq<T>, j: nat)
    requires j <= |e| && |e| > 1
    ensures |PermsFrom(e, j)| == (|e| - j) * Factorial(|e| - 1)
    decreases |e|, |e| - j
  {
    if j == |e| {
    } else {
      PermsCount(Without(e, j));
      PermsFromCount(e, j + 1);
      hide Factorial;
      OneTerm(|e| - j, Factorial(|e| - 1));
    }
  }

  lemma OneTerm(n: nat, f: nat)
    requires n > 0
    ensures n * f == f + (n - 1) * f
  {}

  /** Pascal's rule, arrangement by arrangement. */
  lemma CombosAt<T>(e: seq<T>, k: nat, i: nat)
    requires 0 < k < |e| && i < |Combos(e, k)|
    ensures |Combos(e, k)| == |Combos(e[1..], k - 1)| + |Combos(e[1..], k)|
    ensures var n := |Combos(e[1..], k - 1)|;
      Combos(e, k)[i] == if i < n then InsertAt([e[0]], 0, Combos(e[1..], k - 1)[i])
                         else InsertAt([e[0]], k, Combos(e[1..], k)[i - n])
  {
    hide Combos, InsertAll, InsertAt;
    CombosIs(e, k);
    JoinedAt(InsertAll([e[0]], 0, Combos(e[1..], k - 1)), InsertAll([e[0]], k, Combos(e[1..], k)), i);
  }

  lemma CombosIs<T>(e: seq<T>, k: nat)
    requires 0 < k < |e|
    ensures Combos(e, k) == InsertAll([e[0]], 0, Combos(e[1..], k - 1)) + InsertAll([e[0]], k, Combos(e[1..], k))
  {
    hide InsertAll, InsertAt;
  }

  /** An insertion only moves elements. */
  lemma InsertKeeps<T>(p: seq<T>, k: nat, x: seq<T>)
    requires k <= |x|
    ensures multiset(InsertAt(p, k, x)) == multiset(p) + multiset(x)
  {
    assert x == x[..k] + x[k..];
  }

  lemma HeadInserted<T>(e: seq<T>, k: nat, x: seq<T>)
    requires e != [] && k <= |x| && multiset(x) == multiset(e[1..])
    ensures multiset(InsertAt([e[0]], k, x)) == multiset(e)
  {
    InsertKeeps([e[0]], k, x);
    assert e == [e[0]] + e[1..];
  }

  lemma {:induction false} CombosKeep<T>(e: seq<T>, k: nat, i: nat)
    requires k <= |e| && i < |Combos(e, k)|
    ensures multiset(Combos(e, k)[i]) == multiset(e)
  {
    hide *;
    if k == 0 || k == |e| {
      CombosTrivial(e, k);
    } else {
      var xs, ys := Combos(e[1..], k - 1), Combos(e[1..], k);
      CombosAt(e, k, i);
      if i < |xs| {
        CombosKeep(e[1..], k - 1, i);
        HeadInserted(e, 0, xs[i]);
      } else {
        var j := i - |xs|;
        CombosKeep(e[1..], k, j);
        HeadInserted(e, k, ys[j]);
      }
    }
  }

  /** The elements in front of an arrangement headed by, or passed over by, `h`. */
  lemma FrontOfHeaded<T>(h: T, k: nat, x: seq<T>)
    requires 0 < k <= |x| + 1
    ensures InsertAt([h], 0, x)[..k] == [h] + x[..k - 1]
  {}

  lemma FrontOfPassed<T>(h: T, k: nat, x: seq<T>)
    requires k <= |x|
    ensures InsertAt([h], k, x)[..k] == x[..k]
  {}

  /** The first k elements of the i-th arrangement, along Pascal's rule. */
  lemma CombosFront<T>(e: seq<T>, k: nat, i: nat)
    requires 0 < k < |e| && i < |Combos(e, k)|
    ensures var n := |Combos(e[1..], k - 1)|;
      Combos(e, k)[i][..k] ==
      if i < n then [e[0]] + Combos(e[1..], k - 1)[i][..k - 1] else Combos(e[1..], k)[i - n][..k]
    ensures |Combos(e, k)| == |Combos(e[1..], k - 1)| + |Combos(e[1..], k)|
  {
    hide Combos, InsertAt;
    var xs, ys := Combos(e[1..], k - 1), Combos(e[1..], k);
    CombosAt(e, k, i);
    if i < |xs| {
      FrontOfHeaded(e[0], k, xs[i]);
    } else {
      FrontOfPassed(e[0], k, ys[i - |xs|]);
    }
  }

  /** A choice either takes the first element or is a choice of the others. */
  lemma ChooseHead<T>(e: seq<T>, M: multiset<T>)
    requires e != [] && M <= multiset(e)
    ensures e[0] in M ==> M - multiset{e[0]} <= multiset(e[1..]) && |M - multiset{e[0]}| == |M| - 1
                          && M == multiset{e[0]} + (M - multiset{e[0]})
    ensures e[0] !in M ==> M <= multiset(e[1..])
  {
    assert e == [e[0]] + e[1..];
    assert multiset(e) == multiset{e[0]} + multiset(e[1..]);
  }

  /** Every choice of k elements is in front of some arrangement. */
  lemma {:induction false} CombosCover<T>(e: seq<T>, k: nat, M: multiset<T>) returns (i: nat)
    requires k <= |e| && M <= multiset(e) && |M| == k
    ensures i < |Combos(e, k)| && multiset(Combos(e, k)[i][..k]) == M
  {
    hide Combos;
    i := 0;
    if k == 0 || k == |e| {
      CombosTrivial(e, k);
      assert e[..0] == [] && e[..|e|] == e;
      if k == |e| {
        SameSize(M, multiset(e));
      }
    } else {
      var t := e[1..];
      ChooseHead(e, M);
      CombosSize(e, k);
      if e[0] in M {
        i := CombosCover(t, k - 1, M - multiset{e[0]});
        HeadCovered(e, k, M, i);
      } else {
        var j := CombosCover(t, k, M);
        i := |Combos(t, k - 1)| + j;
        CombosFront(e, k, i);
      }
    }
  }

  lemma HeadCovered<T>(e: seq<T>, k: nat, M: multiset<T>, i: nat)
    requires 0 < k < |e| && M == multiset{e[0]} + (M - multiset{e[0]})
    requires i < |Combos(e[1..], k - 1)| && multiset(Combos(e[1..], k - 1)[i][..k - 1]) == M - multiset{e[0]}
    ensures i < |Combos(e, k)| && multiset(Combos(e, k)[i][..k]) == M
  {
    hide Combos;
    CombosSize(e, k);
    CombosFront(e, k, i);
    HeadCount(e[0], Combos(e[1..], k - 1)[i][..k - 1]);
  }

  lemma HeadCount<T>(h: T, x: seq<T>)
    ensures multiset([h] + x) == multiset{h} + multiset(x)
  {}

  lemma CombosSize<T>(e: seq<T>, k: nat)
    requires 0 < k < |e|
    ensures |Combos(e, k)| == |Combos(e[1..], k - 1)| + |Combos(e[1..], k)|
  {}

  lemma SameSize<T>(M: multiset<T>, N: multiset<T>)
    requires M <= N && |M| == |N|
    ensures M == N
  {
    assert N == M + (N - M);
    assert |N - M| == 0;
  }

  lemma {:induction false} NoDupTail<T>(e: seq<T>)
    requires NoDup(e) && e != []
    ensures NoDup(e[1..]) && e[0] !in multiset(e[1..])
  {}

  /** No choice of k elements is in front of two arrangements. */
  lemma {:induction false} CombosDistinct<T>(e: seq<T>, k: nat, i: nat, j: nat)
    requires k <= |e| && NoDup(e) && i < j < |Combos(e, k)|
    ensures multiset(Combos(e, k)[i][..k]) != multiset(Combos(e, k)[j][..k])
  {
    hide Combos, NoDup;
    if k == 0 || k == |e| {
      CombosTrivial(e, k);
    } else {
      var t := e[1..];
      var n := |Combos(t, k - 1)|;
      NoDupTail(e);
      CombosFront(e, k, i);
      CombosFront(e, k, j);
      if j < n {
        CombosDistinct(t, k - 1, i, j);
        SplitHeaded(e[0], Combos(t, k - 1)[i][..k - 1], Combos(t, k - 1)[j][..k - 1]);
      } else if n <= i {
        CombosDistinct(t, k, i - n, j - n);
      } else {
        CombosKeep(t, k, j - n);
        HeadOnce(e);
        NotInFront(e[0], Combos(t, k)[j - n], k);
        WithHead(e[0], Combos(t, k - 1)[i][..k - 1], Combos(t, k)[j - n][..k]);
      }
    }
  }

  lemma WithHead<T>(h: T, x: seq<T>, y: seq<T>)
    requires h !in multiset(y)
    ensures multiset([h] + x) != multiset(y)
  {
    assert h in multiset([h] + x);
  }

  lemma HeadOnce<T>(e: seq<T>)
    requires NoDup(e) && e != []
    ensures e[0] !in multiset(e[1..])
  {}

  lemma NotInFront<T>(h: T, y: seq<T>, k: nat)
    requires h !in multiset(y) && k <= |y|
    ensures h !in multiset(y[..k])
  {
    assert y == y[..k] + y[k..];
  }

  lemma SplitHeaded<T>(h: T, x: seq<T>, y: seq<T>)
    requires multiset(x) != multiset(y)
    ensures multiset([h] + x) != multiset([h] + y)
  {
    assert multiset([h] + x) - multiset{h} == multiset(x);
    assert multiset([h] + y) - multiset{h} == multiset(y);
  }

  lemma {:induction false} PermsKeep<T>(e: seq<T>, i: nat)
    requires i < |Perms(e)|
    ensures multiset(Perms(e)[i]) == multiset(e)
    decreases |e|, |e| + 1
  {
    if |e| > 1 {
      PermsFromKeep(e, 0, i);
    }
  }

  lemma {:induction false} PermsFromKeep<T>(e: seq<T>, j: nat, i: nat)
    requires j <= |e| && |e| > 1 && i < |PermsFrom(e, j)|
    ensures multiset(PermsFrom(e, j)[i]) == multiset(e)
    decreases |e|, |e| - j
  {
    hide *;
    PermsFromAt(e, j, i);
    var n := |PermsHeaded(e, j)|;
    if i < n {
      PermsKeep(Without(e, j), i);
      HeadedKeep(e, j, Perms(Without(e, j))[i]);
    } else {
      PermsFromKeep(e, j + 1, i - n);
    }
  }

  lemma HeadedKeep<T>(e: seq<T>, j: nat, x: seq<T>)
    requires j < |e| && multiset(x) == multiset(Without(e, j))
    ensures multiset([e[j]] + x) == multiset(e)
  {
    assert e == e[..j] + [e[j]] + e[j + 1..];
  }

  /** Permutation by permutation: e[j] in front of an order of the others, or a
      later element in front. */
  lemma PermsFromAt<T>(e: seq<T>, j: nat, i: nat)
    requires j <= |e| && |e| > 1 && i < |PermsFrom(e, j)|
    ensures j < |e| && |PermsHeaded(e, j)| == |Perms(Without(e, j))|
    ensures |PermsFrom(e, j)| == |PermsHeaded(e, j)| + |PermsFrom(e, j + 1)|
    ensures var n := |PermsHeaded(e, j)|;
      PermsFrom(e, j)[i] == if i < n then [e[j]] + Perms(Without(e, j))[i] else PermsFrom(e, j + 1)[i - n]
  {
    hide Perms, PermsFrom, PermsHeaded;
    PermsFromIs(e, j);
    PermsHeadedAt(e, j);
    JoinedAt(PermsHeaded(e, j), PermsFrom(e, j + 1), i);
  }

  lemma PermsFromIs<T>(e: seq<T>, j: nat)
    requires j <= |e| && |e| > 1
    ensures PermsFrom(e, j) == if j == |e| then [] else PermsHeaded(e, j) + PermsFrom(e, j + 1)
  {
    hide PermsHeaded;
  }

  lemma PermsHeadedAt<T>(e: seq<T>, j: nat)
    requires j < |e|
    ensures |PermsHeaded(e, j)| == |Perms(Without(e, j))|
    ensures forall i :: 0 <= i < |PermsHeaded(e, j)| ==> PermsHeaded(e, j)[i] == [e[j]] + Perms(Without(e, j))[i]
  {
    hide Perms;
  }

  /** Every order is shown. */
  lemma {:induction false} PermsCover<T>(e: seq<T>, y: seq<T>) returns (i: nat)
    requires multiset(y) == multiset(e)
    ensures i < |Perms(e)| && Perms(e)[i] == y
    decreases |e|, |e| + 1
  {
    assert |y| == |multiset(y)| == |multiset(e)| == |e|;
    i := 0;
    if |e| == 1 {
      assert e[0] in multiset(y);
    } else if |e| > 1 {
      assert y[0] in multiset(e);
      var j :| 0 <= j < |e| && e[j] == y[0];
      i := PermsFromCover(e, 0, j, y);
    }
  }

  lemma WithoutHead<T>(e: seq<T>, j: nat, y: seq<T>)
    requires j < |e| && |y| == |e| && multiset(y) == multiset(e) && y[0] == e[j]
    ensures multiset(y[1..]) == multiset(Without(e, j)) && InsertAt([e[j]], 0, y[1..]) == y
  {
    assert e == e[..j] + [e[j]] + e[j + 1..];
    assert y == [y[0]] + y[1..];
    assert multiset(Without(e, j)) == multiset(e) - multiset{e[j]};
    assert multiset(y[1..]) == multiset(y) - multiset{e[j]};
  }

  lemma {:induction false} PermsFromCover<T>(e: seq<T>, i0: nat, j: nat, y: seq<T>) returns (i: nat)
    requires i0 <= j < |e| && |e| > 1 && |y| == |e| && multiset(y) == multiset(e) && y[0] == e[j]
    ensures i < |PermsFrom(e, i0)| && PermsFrom(e, i0)[i] == y
    decreases |e|, |e| - i0
  {
    if i0 == j {
      var w := Without(e, j);
      WithoutHead(e, j, y);
      i := PermsCover(w, y[1..]);
      assert PermsHeaded(e, j)[i] == InsertAt([e[j]], 0, y[1..]);
    } else {
      var k := PermsFromCover(e, i0 + 1, j, y);
      i := |PermsHeaded(e, i0)| + k;
    }
  }

  /** No order is shown twice. */
  lemma {:induction false} PermsDistinct<T>(e: seq<T>)
    requires NoDup(e)
    ensures NoDup(Perms(e))
    decreases |e|, |e| + 1
  {
    if |e| > 1 {
      PermsFromDistinct(e, 0);
    }
  }

  lemma {:induction false} PermsFromDistinct<T>(e: seq<T>, j: nat)
    requires NoDup(e) && j <= |e| && |e| > 1
    ensures NoDup(PermsFrom(e, j))
    ensures forall i :: 0 <= i < |PermsFrom(e, j)| ==> PermsFrom(e, j)[i][0] in e[j..]
    decreases |e|, |e| - j
  {
    if j == |e| {
    } else {
      var w := Without(e, j);
      PermsDistinct(w);
      PermsFromDistinct(e, j + 1);
      var hs, ts := PermsHeaded(e, j), PermsFrom(e, j + 1);
      forall i | 0 <= i < |hs| ensures hs[i] == [e[j]] + Perms(w)[i] {}
      forall i, k | 0 <= i < k < |hs| ensures hs[i] != hs[k] {
        assert hs[i][1..] == Perms(w)[i] && hs[k][1..] == Perms(w)[k];
      }
      forall i | 0 <= i < |hs + ts| ensures (hs + ts)[i][0] in e[j..] {
        if i >= |hs| {
          assert ts[i - |hs|][0] in e[j + 1..];
        } else {
          assert e[j..][0] == e[j];
        }
      }
    }
  }

  /** The same facts for the three-range enumeration. */
  lemma Combos3Front<T>(e: seq<T>, k: nat, m: nat, i: nat)
    requires 2 <= k && 1 <= m && k + m < |e| && i < |Combos3(e, k, m)|
    ensures |Combos3(e, k, m)| == |Combos3(e[1..], k - 1, m)| + |Combos3Tail(e[1..], k, m - 1)|
    ensures var n := |Combos3(e[1..], k - 1, m)|;
      Combos3(e, k, m)[i][..k] ==
      if i < n then [e[0]] + Combos3(e[1..], k - 1, m)[i][..k - 1] else Combos3Tail(e[1..], k, m - 1)[i - n][..k]
  {
    hide Combos3, Combos3Tail, InsertAt;
    var xs, ys := Combos3(e[1..], k - 1, m), Combos3Tail(e[1..], k, m - 1);
    Combos3At(e, k, m, i);
    if i < |xs| {
      FrontOfHeaded(e[0], k, xs[i]);
    } else {
      FrontOfPassed(e[0], k, ys[i - |xs|]);
    }
  }

  lemma Combos3At<T>(e: seq<T>, k: nat, m: nat, i: nat)
    requires 2 <= k && 1 <= m && k + m < |e| && i < |Combos3(e, k, m)|
    ensures |Combos3(e, k, m)| == |Combos3(e[1..], k - 1, m)| + |Combos3Tail(e[1..], k, m - 1)|
    ensures var n := |Combos3(e[1..], k - 1, m)|;
      Combos3(e, k, m)[i] == if i < n then InsertAt([e[0]], 0, Combos3(e[1..], k - 1, m)[i])
                             else InsertAt([e[0]], k, Combos3Tail(e[1..], k, m - 1)[i - n])
  {
    hide Combos, Combos3, Combos3Tail, InsertAll, InsertAt, Single3;
    var xs, ys := Combos3(e[1..], k - 1, m), Combos3Tail(e[1..], k, m - 1);
    Combos3Is(e, k, m);
    JoinedAt(InsertAll([e[0]], 0, xs), InsertAll([e[0]], k, ys), i);
  }

  lemma Combos3Is<T>(e: seq<T>, k: nat, m: nat)
    requires 2 <= k && 1 <= m && k + m < |e|
    ensures Combos3(e, k, m)
         == InsertAll([e[0]], 0, Combos3(e[1..], k - 1, m)) + InsertAll([e[0]], k, Combos3Tail(e[1..], k, m - 1))
  {
    hide Combos, Combos3Tail, InsertAll, InsertAt, Single3;
  }

  lemma JoinedAt<T>(a: seq<T>, b: seq<T>, i: nat)
    requires i < |a| + |b|
    ensures (a + b)[i] == if i < |a| then a[i] else b[i - |a|]
  {}

  lemma Combos3Size<T>(e: seq<T>, k: nat, m: nat)
    requires 2 <= k && 1 <= m && k + m < |e|
    ensures |Combos3(e, k, m)| == |Combos3(e[1..], k - 1, m)| + |Combos3Tail(e[1..], k, m - 1)|
  {}

  lemma Single3Keeps<T>(e: seq<T>, m: nat, j: nat)
    requires 1 <= m && m + 1 < |e| && j < |e|
    ensures multiset(Single3(e, m, j)) == multiset(e)
  {
    var w := Without(e, j);
    assert e == e[..j] + [e[j]] + e[j + 1..];
    assert multiset(w) + multiset{e[j]} == multiset(e);
    SwappedKeeps(w, m - 1, m);
  }

  lemma SwappedKeeps<T>(w: seq<T>, i: nat, j: nat)
    requires i < |w| && j < |w|
    ensures multiset(Swapped(w, i, j)) == multiset(w)
  {}

  lemma {:induction false} Combos3Keep<T>(e: seq<T>, k: nat, m: nat, i: nat)
    requires 1 <= k && k + m < |e| && i < |Combos3Tail(e, k, m)|
    ensures multiset(Combos3Tail(e, k, m)[i]) == multiset(e)
  {
    if m == 0 {
      CombosKeep(e, k, i);
    } else if k == 1 {
      Single3Keeps(e, m, i);
    } else {
      var xs, ys := Combos3(e[1..], k - 1, m), Combos3Tail(e[1..], k, m - 1);
      assert e == [e[0]] + e[1..];
      if i < |xs| {
        Combos3Keep(e[1..], k - 1, m, i);
        InsertKeeps([e[0]], 0, xs[i]);
      } else {
        Combos3Keep(e[1..], k, m - 1, i - |xs|);
        InsertKeeps([e[0]], k, ys[i - |xs|]);
      }
    }
  }

  lemma Combos3IsTail<T>(e: seq<T>, k: nat, m: nat)
    requires 1 <= k && 1 <= m && k + m < |e|
    ensures Combos3Tail(e, k, m) == Combos3(e, k, m)
    ensures k > 1 ==> Combos3Tail(e[1..], k - 1, m) == Combos3(e[1..], k - 1, m)
  {
    hide Combos3;
  }

  lemma Combos3IsLast<T>(e: seq<T>, k: nat)
    requires 1 <= k < |e|
    ensures Combos3Tail(e, k, 0) == Combos(e, k)
  {
    hide Combos;
  }

  lemma {:induction false} Combos3Cover<T>(e: seq<T>, k: nat, m: nat, M: multiset<T>) returns (i: nat)
    requires 1 <= k && k + m < |e| && M <= multiset(e) && |M| == k
    ensures i < |Combos3Tail(e, k, m)| && multiset(Combos3Tail(e, k, m)[i][..k]) == M
  {
    hide Combos, Combos3, Combos3Tail;
    if m == 0 {
      i := CombosCover(e, k, M);
      Combos3IsLast(e, k);
    } else if k == 1 {
      i := SingleCover(e, m, M);
      Combos3IsTail(e, k, m);
    } else {
      var t := e[1..];
      Combos3IsTail(e, k, m);
      ChooseHead(e, M);
      Combos3Size(e, k, m);
      if e[0] in M {
        i := Combos3Cover(t, k - 1, m, M - multiset{e[0]});
        HeadCovered3(e, k, m, M, i);
      } else {
        var j := Combos3Cover(t, k, m - 1, M);
        i := |Combos3(t, k - 1, m)| + j;
        Combos3Front(e, k, m, i);
      }
    }
  }

  lemma HeadCovered3<T>(e: seq<T>, k: nat, m: nat, M: multiset<T>, i: nat)
    requires 2 <= k && 1 <= m && k + m < |e| && M == multiset{e[0]} + (M - multiset{e[0]})
    requires i < |Combos3(e[1..], k - 1, m)|
    requires multiset(Combos3(e[1..], k - 1, m)[i][..k - 1]) == M - multiset{e[0]}
    ensures i < |Combos3(e, k, m)| && multiset(Combos3(e, k, m)[i][..k]) == M
  {
    hide Combos3, Combos3Tail;
    Combos3Size(e, k, m);
    Combos3Front(e, k, m, i);
    HeadCount(e[0], Combos3(e[1..], k - 1, m)[i][..k - 1]);
  }

  lemma SingleCover<T>(e: seq<T>, m: nat, M: multiset<T>) returns (i: nat)
    requires 1 <= m && m + 1 < |e| && M <= multiset(e) && |M| == 1
    ensures i < |Combos3(e, 1, m)| && multiset(Combos3(e, 1, m)[i][..1]) == M
  {
    var x :| x in M;
    assert M == multiset{x} by { SameSize(multiset{x}, M); }
    assert x in multiset(e);
    i :| 0 <= i < |e| && e[i] == x;
    assert Single3(e, m, i)[..1] == [x];
  }

  lemma SingleDistinct<T>(e: seq<T>, m: nat, i: nat, j: nat)
    requires 1 <= m && m + 1 < |e| && NoDup(e) && i < j < |Combos3(e, 1, m)|
    ensures multiset(Combos3(e, 1, m)[i][..1]) != multiset(Combos3(e, 1, m)[j][..1])
  {
    assert Single3(e, m, i)[..1] == [e[i]] && Single3(e, m, j)[..1] == [e[j]];
    assert e[i] !in multiset{e[j]};
  }

  lemma {:induction false} Combos3Distinct<T>(e: seq<T>, k: nat, m: nat, i: nat, j: nat)
    requires 1 <= k && k + m < |e| && NoDup(e) && i < j < |Combos3Tail(e, k, m)|
    ensures multiset(Combos3Tail(e, k, m)[i][..k]) != multiset(Combos3Tail(e, k, m)[j][..k])
  {
    hide Combos, Combos3, NoDup;
    if m == 0 {
      CombosDistinct(e, k, i, j);
    } else if k == 1 {
      SingleDistinct(e, m, i, j);
    } else {
      var t := e[1..];
      var n := |Combos3(t, k - 1, m)|;
      NoDupTail(e);
      Combos3Front(e, k, m, i);
      Combos3Front(e, k, m, j);
      if j < n {
        Combos3Distinct(t, k - 1, m, i, j);
        SplitHeaded(e[0], Combos3(t, k - 1, m)[i][..k - 1], Combos3(t, k - 1, m)[j][..k - 1]);
      } else if n <= i {
        Combos3Distinct(t, k, m - 1, i - n, j - n);
      } else {
        Combos3Keep(t, k, m - 1, j - n);
        HeadOnce(e);
        NotInFront(e[0], Combos3Tail(t, k, m - 1)[j - n], k);
        WithHead(e[0], Combos3(t, k - 1, m)[i][..k - 1], Combos3Tail(t, k, m - 1)[j - n][..k]);
      }
    }
  }
}
