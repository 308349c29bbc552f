/** What combine_discontinuous and combine_discontinuous3_ show their callback:
    the chosen elements first, the others behind them. */
module Arrangements {
  import opened Slots

  function InsertAt<T>(p: seq<T>, k: nat, x: seq<T>): (y: seq<T>)
    requires k <= |x|
    ensures |y| == |p| + |x|
  {
    x[..k] + p + x[k..]
  }

  /** `p` pushed in behind the first k elements of every arrangement. */
  function InsertAll<T>(p: seq<T>, k: nat, xs: seq<seq<T>>): (ys: seq<seq<T>>)
    requires AllLong(xs, k)
    ensures |ys| == |xs|
    ensures forall i :: 0 <= i < |xs| ==> ys[i] == InsertAt(p, k, xs[i])
  {
    seq(|xs|, i requires 0 <= i < |xs| => InsertAt(p, k, xs[i]))
  }

  ghost predicate AllLong<T>(xs: seq<seq<T>>, k: nat) {
    forall i :: 0 <= i < |xs| ==> k <= |xs[i]|
  }

  ghost predicate AllSized<T>(xs: seq<seq<T>>, n: nat) {
    forall i :: 0 <= i < |xs| ==> |xs[i]| == n
  }

  /** All ways to take k elements of `e`: arrangement by arrangement the taken
      elements, then the others, both in their order in `e`. */
  function Combos<T>(e: seq<T>, k: nat): (xs: seq<seq<T>>)
    requires k <= |e|
    ensures AllSized(xs, |e|)
  {
    if k == 0 || k == |e| then [e]
    else
      InsertAll([e[0]], 0, Combos(e[1..], k - 1)) + InsertAll([e[0]], k, Combos(e[1..], k))
  }

  function Without<T>(e: seq<T>, j: nat): (r: seq<T>)
    requires j < |e|
    ensures |r| == |e| - 1
  {
    e[..j] + e[j + 1..]
  }

  /** The j-th arrangement that combine_discontinuous3_ shows for d1 == 1. Beyond
      the second range the algorithm leaves two of the untaken elements swapped
      across the gap between the second and the third range. */
  function Single3<T>(e: seq<T>, m: nat, j: nat): (x: seq<T>)
    requires 1 <= m && m + 1 < |e| && j < |e|
    ensures |x| == |e|
  {
    [e[j]] + (if j <= m then Without(e, j) else Swapped(Without(e, j), m - 1, m))
  }

  /** As Combos, for a second range of m elements and a non-empty third range. */
  function Combos3<T>(e: seq<T>, k: nat, m: nat): (xs: seq<seq<T>>)
    requires 1 <= k && 1 <= m && k + m < |e|
    ensures AllSized(xs, |e|)
    decreases |e|, 0
  {
    if k == 1 then seq(|e|, j requires 0 <= j < |e| => Single3(e, m, j))
    else
      InsertAll([e[0]], 0, Combos3(e[1..], k - 1, m))
      + InsertAll([e[0]], k, Combos3Tail(e[1..], k, m - 1))
  }

  function Combos3Tail<T>(e: seq<T>, k: nat, m: nat): (xs: seq<seq<T>>)
    requires 1 <= k && k + m < |e|
    ensures AllSized(xs, |e|)
    decreases |e|, 1
  {
    if m == 0 then Combos(e, k) else Combos3(e, k, m)
  }

  lemma InsertAllConcat<T>(p: seq<T>, k: nat, xs: seq<seq<T>>, ys: seq<seq<T>>)
    requires AllLong(xs, k)
    requires AllLong(ys, k)
    ensures InsertAll(p, k, xs + ys) == InsertAll(p, k, xs) + InsertAll(p, k, ys)
  {}

  lemma InsertAllTwice<T>(p: seq<T>, q: seq<T>, k: nat, xs: seq<seq<T>>)
    requires AllLong(xs, k)
    ensures InsertAll(p, k, InsertAll(q, k, xs)) == InsertAll(p + q, k, xs)
  {
    forall i | 0 <= i < |xs|
      ensures InsertAll(p, k, InsertAll(q, k, xs))[i] == InsertAll(p + q, k, xs)[i]
    {
      var x := xs[i];
      assert InsertAt(q, k, x)[..k] == x[..k];
      assert InsertAt(q, k, x)[k..] == q + x[k..];
    }
  }

  lemma InsertAllNothing<T>(k: nat, xs: seq<seq<T>>)
    requires AllLong(xs, k)
    ensures InsertAll([], k, xs) == xs
  {
    forall i | 0 <= i < |xs| ensures InsertAll([], k, xs)[i] == xs[i] {
      assert xs[i][..k] + [] + xs[i][k..] == xs[i];
    }
  }

  /** The joined content while the combinations headed by e[j] are shown. */
  function Current<T>(e: seq<T>, k: nat, j: nat): (c: seq<T>)
    requires j + k <= |e|
    ensures |c| == |e|
  {
    e[j..j + k] + e[..j] + e[j + k..]
  }

  /** The arrangements still to come when j elements have been passed over. */
  function CombosFrom<T>(e: seq<T>, k: nat, j: nat): (xs: seq<seq<T>>)
    requires 1 <= k && j + k <= |e|
    ensures AllSized(xs, |e|)
  {
    InsertAll(e[..j], k, Combos(e[j..], k))
  }

  /** Those among them that have e[j] in front. */
  function Headed<T>(e: seq<T>, k: nat, j: nat, xs: seq<seq<T>>): (ys: seq<seq<T>>)
    requires 1 <= k && j + k <= |e|
    requires AllSized(xs, |e| - j - 1)
    ensures AllSized(ys, |e|)
    ensures |ys| == |xs|
    ensures forall i :: 0 <= i < |xs| ==> ys[i] == [e[j]] + xs[i][..k - 1] + e[..j] + xs[i][k - 1..]
  {
    seq(|xs|, i requires 0 <= i < |xs| => [e[j]] + xs[i][..k - 1] + e[..j] + xs[i][k - 1..])
  }

  lemma HeadedInsert<T>(e: seq<T>, k: nat, j: nat, xs: seq<seq<T>>)
    requires 1 <= k && j + k <= |e|
    requires AllSized(xs, |e| - j - 1)
    ensures AllSized(InsertAll([e[j]], 0, xs), |e| - j)
    ensures InsertAll(e[..j], k, InsertAll([e[j]], 0, xs)) == Headed(e, k, j, xs)
  {
    var ys := InsertAll([e[j]], 0, xs);
    forall i | 0 <= i < |xs|
      ensures InsertAll(e[..j], k, ys)[i] == Headed(e, k, j, xs)[i]
    {
      var x := xs[i];
      assert ys[i] == [e[j]] + x;
      assert ([e[j]] + x)[..k] == [e[j]] + x[..k - 1];
      assert ([e[j]] + x)[k..] == x[k - 1..];
    }
  }

  lemma CombosStep<T>(e: seq<T>, k: nat, j: nat)
    requires 1 <= k && j + k < |e|
    ensures CombosFrom(e, k, j)
         == Headed(e, k, j, Combos(e[j + 1..], k - 1)) + CombosFrom(e, k, j + 1)
  {
    var t := e[j..];
    var hs, ts := Combos(e[j + 1..], k - 1), Combos(e[j + 1..], k);
    assert t[1..] == e[j + 1..] && t[0] == e[j];
    HeadedInsert(e, k, j, hs);
    assert Combos(t, k) == InsertAll([e[j]], 0, hs) + InsertAll([e[j]], k, ts);
    InsertAllConcat(e[..j], k, InsertAll([e[j]], 0, hs), InsertAll([e[j]], k, ts));
    InsertAllTwice(e[..j], [e[j]], k, ts);
    assert e[..j] + [e[j]] == e[..j + 1];
  }

  lemma CombosFirst<T>(e: seq<T>, k: nat)
    requires 1 <= k <= |e|
    ensures CombosFrom(e, k, 0) == Combos(e, k)
  {
    assert e[0..] == e && e[..0] == [];
    InsertAllNothing(k, Combos(e, k));
  }

  lemma CombosLast<T>(e: seq<T>, k: nat, m: nat)
    requires 1 <= k && k + m == |e|
    ensures CombosFrom(e, k, m) == [Current(e, k, m)]
    ensures Current(e, k, m) == e[m..] + e[..m]
  {
    var p, t := e[..m], e[m..];
    assert InsertAt(p, k, t) == t + p;
    assert Combos(t, k) == [t];
    assert InsertAll(p, k, [t]) == [InsertAt(p, k, t)];
    assert Current(e, k, m) == t + p;
  }

  function Combos3From<T>(e: seq<T>, k: nat, m: nat, j: nat): (xs: seq<seq<T>>)
    requires 2 <= k && j <= m && k + m < |e|
    ensures AllSized(xs, |e|)
  {
    InsertAll(e[..j], k, Combos3Tail(e[j..], k, m - j))
  }

  lemma Combos3Step<T>(e: seq<T>, k: nat, m: nat, j: nat)
    requires 2 <= k && j < m && k + m < |e|
    ensures Combos3From(e, k, m, j)
         == Headed(e, k, j, Combos3(e[j + 1..], k - 1, m - j)) + Combos3From(e, k, m, j + 1)
  {
    var t := e[j..];
    var hs, ts := Combos3(e[j + 1..], k - 1, m - j), Combos3Tail(e[j + 1..], k, m - j - 1);
    assert t[1..] == e[j + 1..] && t[0] == e[j];
    HeadedInsert(e, k, j, hs);
    assert Combos3(t, k, m - j) == InsertAll([e[j]], 0, hs) + InsertAll([e[j]], k, ts);
    InsertAllConcat(e[..j], k, InsertAll([e[j]], 0, hs), InsertAll([e[j]], k, ts));
    InsertAllTwice(e[..j], [e[j]], k, ts);
    assert e[..j] + [e[j]] == e[..j + 1];
  }

  lemma Combos3Ends<T>(e: seq<T>, k: nat, m: nat)
    requires 2 <= k && 1 <= m && k + m < |e|
    ensures Combos3From(e, k, m, 0) == Combos3(e, k, m)
    ensures Combos3From(e, k, m, m) == CombosFrom(e, k, m)
  {
    assert e[0..] == e && e[..0] == [];
    InsertAllNothing(k, Combos3(e, k, m));
  }

  /** The joined content a nested call leaves behind: the head moved behind the
      first range, so that the caller's swap finds it there. */
  function Passed<T>(e: seq<T>, k: nat): (c: seq<T>)
    requires k < |e|
    ensures |c| == |e|
  {
    e[1..k + 1] + [e[0]] + e[k + 1..]
  }

  /** The swap after the nested call brings the next head to the front. */
  lemma CurrentStep<T>(e: seq<T>, k: nat, j: nat)
    requires 1 <= k && j + k < |e|
    ensures var t := e[j + 1..];
            var q := if k == 1 then t else Passed(t, k - 1);
            Swapped([e[j]] + q[..k - 1] + e[..j] + q[k - 1..], 0, k + j) == Current(e, k, j + 1)
  {
    PassedTail(e, k, j);
    hide Passed, Swapped;
    var h, y := e[j + 2..j + k + 1], e[j + k + 1..];
    SwapEnds(e[j], h, e[..j], e[j + 1], y);
    NextHead(e, k, j);
  }

  lemma NextHead<T>(e: seq<T>, k: nat, j: nat)
    requires 1 <= k && j + k < |e|
    ensures Current(e, k, j + 1) == [e[j + 1]] + e[j + 2..j + k + 1] + (e[..j] + [e[j]]) + e[j + k + 1..]
  {
    assert e[j + 1..j + 1 + k] == [e[j + 1]] + e[j + 2..j + k + 1] && e[..j + 1] == e[..j] + [e[j]];
  }

  lemma SwapEnds<T>(a: T, h: seq<T>, p: seq<T>, b: T, y: seq<T>)
    ensures Swapped([a] + h + p + ([b] + y), 0, |h| + |p| + 1) == [b] + h + (p + [a]) + y
  {}

  lemma PassedTail<T>(e: seq<T>, k: nat, j: nat)
    requires 1 <= k && j + k < |e|
    ensures var t := e[j + 1..];
            var q := if k == 1 then t else Passed(t, k - 1);
            q[..k - 1] == e[j + 2..j + k + 1] && q[k - 1..] == [e[j + 1]] + e[j + k + 1..]
  {
    var t := e[j + 1..];
    if k > 1 {
      assert t[1..k] == e[j + 2..j + k + 1] && t[k..] == e[j + k + 1..];
    } else {
      assert t[..0] == e[j + 2..j + 2] && t[0..] == [e[j + 1]] + e[j + 2..];
    }
  }

  lemma CurrentParts<T>(e: seq<T>, k: nat, j: nat)
    requires 1 <= k && j + k <= |e|
    ensures var c := Current(e, k, j);
            c[..1] == [e[j]] && c[k..k + j] == e[..j] && c[1..k] + c[k + j..] == e[j + 1..]
  {
    var c := Current(e, k, j);
    assert c[1..k] == e[j + 1..j + k] && c[k + j..] == e[j + k..];
    assert e[j + 1..j + k] + e[j + k..] == e[j + 1..];
  }

  lemma CurrentStart<T>(e: seq<T>, k: nat)
    requires k <= |e|
    ensures Current(e, k, 0) == e
  {}

  lemma CombosTrivial<T>(e: seq<T>, k: nat)
    requires k == 0 || k == |e|
    ensures Combos(e, k) == [e]
  {}

  lemma HeadedSingle<T>(e: seq<T>, j: nat)
    requires j + 1 < |e|
    ensures var u := e[j + 1..];
            && Headed(e, 1, j, Combos(u, 0)) == [Current(e, 1, j)]
            && [e[j]] + u[..0] + e[..j] + u == Current(e, 1, j)
  {
    var u := e[j + 1..];
    assert e[j..j + 1] == [e[j]];
    assert [e[j]] + u[..0] + e[..j] + u == Current(e, 1, j);
  }

  /** The swaps of combine_discontinuous3_ for d1 == 1. */
  lemma Single3Start<T>(e: seq<T>, m: nat)
    requires 1 <= m && m + 1 < |e|
    ensures Single3(e, m, 0) == e
  {}

  lemma Single3At<T>(e: seq<T>, m: nat, j: nat, i: nat)
    requires 1 <= m && m + 1 < |e| && j < |e| && i < |e|
    ensures Single3(e, m, j)[i] ==
      if i == 0 then e[j]
      else if j > m && i == m then e[m]
      else if j > m && i == m + 1 then e[m - 1]
      else if i <= j then e[i - 1] else e[i]
  {}

  lemma Single3Step<T>(e: seq<T>, m: nat, j: nat)
    requires 1 <= m && m + 1 < |e| && j + 1 < |e| && j != m
    ensures Swapped(Single3(e, m, j), 0, j + 1) == Single3(e, m, j + 1)
  {
    var x, y := Single3(e, m, j), Single3(e, m, j + 1);
    forall i | 0 <= i < |e| ensures Swapped(x, 0, j + 1)[i] == y[i] {
      Single3At(e, m, j, i);
      Single3At(e, m, j, j + 1);
      Single3At(e, m, j + 1, i);
    }
  }

  lemma Single3Jump<T>(e: seq<T>, m: nat)
    requires 1 <= m && m + 1 < |e|
    ensures Swapped(Swapped(Single3(e, m, m), 0, m), 0, m + 1) == Single3(e, m, m + 1)
  {
    var x, y := Single3(e, m, m), Single3(e, m, m + 1);
    forall i | 0 <= i < |e| ensures Swapped(Swapped(x, 0, m), 0, m + 1)[i] == y[i] {
      Single3At(e, m, m, i);
      Single3At(e, m, m, m);
      Single3At(e, m, m, m + 1);
      Single3At(e, m, m + 1, i);
    }
  }

  lemma Single3Last<T>(e: seq<T>, m: nat)
    requires 1 <= m && m + 1 < |e|
    ensures Swapped(Single3(e, m, |e| - 1), m, m + 1) == Current(e, 1, |e| - 1)
  {
    var x, y := Single3(e, m, |e| - 1), Current(e, 1, |e| - 1);
    forall i | 0 <= i < |e| ensures Swapped(x, m, m + 1)[i] == y[i] {
      Single3At(e, m, |e| - 1, i);
      Single3At(e, m, |e| - 1, m);
      Single3At(e, m, |e| - 1, m + 1);
    }
  }

  lemma SinglesListed<T>(e: seq<T>, m: nat)
    requires 1 <= m && m + 1 < |e|
    ensures |Combos3(e, 1, m)| == |e|
    ensures forall j {:trigger Combos3(e, 1, m)[j]} :: 0 <= j < |e| ==> Combos3(e, 1, m)[j] == Single3(e, m, j)
  {}
}
