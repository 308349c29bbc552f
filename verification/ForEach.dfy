/** The for_each_* entry points: what the callback sees of [first, mid). */
module ForEach {
  import opened Slots
  import opened Arrangements
  import opened Functors
  import opened Choices
  import opened Coverage
  import opened ReversibleCoverage

  function Views<T>(visits: seq<seq<T>>, first: nat, mid: nat, n: nat): (vs: seq<seq<T>>)
    requires first <= mid <= n && AllSized(visits, n)
    ensures |vs| == |visits| && AllSized(vs, mid - first)
  {
    seq(|visits|, i requires 0 <= i < |visits| => visits[i][first..mid])
  }

  /** for_each_combination with the adapter `g`: everything the callback sees. */
  function Seen<T>(g: Functor, s: seq<T>, first: nat, mid: nat, last: nat): (vs: seq<seq<T>>)
    requires g.Fits(|s|) && first <= mid <= last <= |s|
  {
    Views(Visits(Combine(g, Two(first, mid, mid, last)), s), first, mid, |s|)
  }

  /** The array content during the i-th combination. */
  function Chosen<T>(s: seq<T>, first: nat, mid: nat, last: nat, i: nat): (t: seq<T>)
    requires first <= mid <= last <= |s| && i < |Combos(s[first..last], mid - first)|
    ensures |t| == |s|
  {
    Two(first, mid, mid, last).Put(s, Combos(s[first..last], mid - first)[i])
  }

  lemma ChosenSlices<T>(s: seq<T>, first: nat, mid: nat, last: nat, i: nat)
    requires first <= mid <= last <= |s| && i < |Combos(s[first..last], mid - first)|
    ensures var c := Combos(s[first..last], mid - first)[i]; var t := Chosen(s, first, mid, last, i);
      t[first..mid] == c[..mid - first] && t[mid..last] == c[mid - first..] && multiset(c) == multiset(s[first..last])
  {
    hide Combos;
    var c := Combos(s[first..last], mid - first)[i];
    CombosKeep(s[first..last], mid - first, i);
    WholePut(s, first, mid, last, c);
  }

  lemma WholePut<T>(s: seq<T>, first: nat, mid: nat, last: nat, c: seq<T>)
    requires first <= mid <= last <= |s| && |c| == last - first
    ensures var t := Two(first, mid, mid, last).Put(s, c);
      t[first..mid] == c[..mid - first] && t[mid..last] == c[mid - first..]
  {}

  /** The visits of for_each_combination are those of the single combinations. */
  lemma InForEach<T>(g: Functor, s: seq<T>, first: nat, mid: nat, last: nat, y: seq<T>)
    requires g.Fits(|s|) && first <= mid <= last <= |s|
    ensures var n := |Combos(s[first..last], mid - first)|;
      y in Visits(Combine(g, Two(first, mid, mid, last)), s) <==>
      exists i :: 0 <= i < n && y in Visits(g, Chosen(s, first, mid, last, i))
  {
    hide Visits, VisitsAll, Combos, Ranges.Put;
    var R := Two(first, mid, mid, last);
    assert R.Get(s) == s[first..last] by { JoinedWhole(s, first, mid, last); }
    var cs := Combos(s[first..last], mid - first);
    var X := PutAll(R, s, cs);
    VisitsCombine(g, R, s);
    InVisitsAll(g, |s|, X, y);
    assert forall i :: 0 <= i < |cs| ==> X[i] == Chosen(s, first, mid, last, i);
  }

  lemma JoinedWhole<T>(s: seq<T>, first: nat, mid: nat, last: nat)
    requires first <= mid <= last <= |s|
    ensures Two(first, mid, mid, last).Get(s) == s[first..last]
  {}

  /** Seeing the sub-collection of a combination, the callback is inside it. */
  lemma SameChoice<T>(s: seq<T>, first: nat, mid: nat, last: nat, i: nat, j: nat, y: seq<T>, z: seq<T>)
    requires first <= mid <= last <= |s| && NoDup(s[first..last])
    requires var n := |Combos(s[first..last], mid - first)|; i < n && j < n
    requires Shuffled(Chosen(s, first, mid, last, i), y, first, mid)
    requires Shuffled(Chosen(s, first, mid, last, j), z, first, mid)
    requires multiset(y[first..mid]) == multiset(z[first..mid])
    ensures i == j
  {
    hide Combos, Chosen;
    ChosenSlices(s, first, mid, last, i);
    ChosenSlices(s, first, mid, last, j);
    if i < j {
      CombosDistinct(s[first..last], mid - first, i, j);
    } else if j < i {
      CombosDistinct(s[first..last], mid - first, j, i);
    }
  }

  lemma InViews<T>(visits: seq<seq<T>>, first: nat, mid: nat, n: nat, z: seq<T>)
    requires first <= mid <= n && AllSized(visits, n)
    ensures z in Views(visits, first, mid, n) <==> exists y :: y in visits && y[first..mid] == z
  {
    var vs := Views(visits, first, mid, n);
    if z in vs {
      var i :| 0 <= i < |vs| && vs[i] == z;
      assert visits[i] in visits;
    }
    if y :| y in visits && y[first..mid] == z {
      var i :| 0 <= i < |visits| && visits[i] == y;
      assert vs[i] == z;
    }
  }

  /** Which arrangements of [first, mid) are seen, for an adapter that permutes
      only that range: those the adapter shows of the right combination. */
  lemma InSeen<T>(g: Functor, s: seq<T>, first: nat, mid: nat, last: nat, z: seq<T>) returns (i: nat)
    requires g.Fits(|s|) && first <= mid <= last <= |s| && NoDup(s[first..last])
    requires forall x: seq<T>, y: seq<T> :: |x| == |s| && y in Visits(g, x) ==> Shuffled(x, y, first, mid)
    requires |z| == mid - first && multiset(z) <= multiset(s[first..last])
    ensures i < |Combos(s[first..last], mid - first)|
    ensures multiset(Combos(s[first..last], mid - first)[i][..mid - first]) == multiset(z)
    ensures var t := Chosen(s, first, mid, last, i);
      && t[first..mid] == Combos(s[first..last], mid - first)[i][..mid - first]
      && Shuffled(t, One(first, mid).Put(t, z), first, mid) && One(first, mid).Put(t, z)[first..mid] == z
      && (z in Seen(g, s, first, mid, last) <==> One(first, mid).Put(t, z) in Visits(g, t))
  {
    hide Visits, Combos, Seen, Shuffled, NoDup, Chosen, Ranges.Put;
    i := CombosCover(s[first..last], mid - first, multiset(z));
    var t := Chosen(s, first, mid, last, i);
    ChosenSlices(s, first, mid, last, i);
    PutShuffled(t, z, first, mid);
    SeenIff(g, s, first, mid, last, z, i, One(first, mid).Put(t, z));
  }

  lemma SeenIff<T>(g: Functor, s: seq<T>, first: nat, mid: nat, last: nat, z: seq<T>, i: nat, y: seq<T>)
    requires g.Fits(|s|) && first <= mid <= last <= |s| && NoDup(s[first..last])
    requires forall x: seq<T>, y: seq<T> :: |x| == |s| && y in Visits(g, x) ==> Shuffled(x, y, first, mid)
    requires i < |Combos(s[first..last], mid - first)|
    requires Shuffled(Chosen(s, first, mid, last, i), y, first, mid) && |y| == |s| && y[first..mid] == z
    ensures z in Seen(g, s, first, mid, last) <==> y in Visits(g, Chosen(s, first, mid, last, i))
  {
    hide Visits, Combos, Views, Shuffled, NoDup, Chosen, Ranges.Put;
    var t := Chosen(s, first, mid, last, i);
    var all := Visits(Combine(g, Two(first, mid, mid, last)), s);
    InViews(all, first, mid, |s|, z);
    InForEach(g, s, first, mid, last, y);
    if z in Seen(g, s, first, mid, last) {
      var w :| w in all && w[first..mid] == z;
      InForEach(g, s, first, mid, last, w);
      var j :| 0 <= j < |Combos(s[first..last], mid - first)| && w in Visits(g, Chosen(s, first, mid, last, j));
      SameChoice(s, first, mid, last, i, j, y, w);
      ShuffledAlike(t, y, w, first, mid);
    }
  }

  lemma PutShuffled<T>(t: seq<T>, z: seq<T>, first: nat, mid: nat)
    requires first <= mid <= |t| && |z| == mid - first && multiset(z) == multiset(t[first..mid])
    ensures Shuffled(t, One(first, mid).Put(t, z), first, mid) && One(first, mid).Put(t, z)[first..mid] == z
  {
    assert One(first, mid).Put(t, z)[first..mid] == z;
  }

  lemma ShuffledAlike<T>(t: seq<T>, y: seq<T>, w: seq<T>, first: nat, mid: nat)
    requires first <= mid <= |t| && Shuffled(t, y, first, mid) && Shuffled(t, w, first, mid)
    requires y[first..mid] == w[first..mid]
    ensures y == w
  {
    forall k | 0 <= k < |t| ensures y[k] == w[k] {
      if first <= k < mid {
        assert y[first..mid][k - first] == y[k] && w[first..mid][k - first] == w[k];
      }
    }
  }

  /** Only arrangements of k elements of the whole range are seen. */
  lemma OnlySeen<T>(g: Functor, s: seq<T>, first: nat, mid: nat, last: nat, z: seq<T>)
    requires g.Fits(|s|) && first <= mid <= last <= |s|
    requires forall x: seq<T>, y: seq<T> :: |x| == |s| && y in Visits(g, x) ==> Shuffled(x, y, first, mid)
    requires z in Seen(g, s, first, mid, last)
    ensures |z| == mid - first && multiset(z) <= multiset(s[first..last])
  {
    hide Visits, Combos, Views, Chosen, Shuffled;
    var all := Visits(Combine(g, Two(first, mid, mid, last)), s);
    InViews(all, first, mid, |s|, z);
    var w :| w in all && w[first..mid] == z;
    InForEach(g, s, first, mid, last, w);
    var j :| 0 <= j < |Combos(s[first..last], mid - first)| && w in Visits(g, Chosen(s, first, mid, last, j));
    ChosenFront(s, first, mid, last, j, w);
  }

  lemma ChosenFront<T>(s: seq<T>, first: nat, mid: nat, last: nat, i: nat, y: seq<T>)
    requires first <= mid <= last <= |s| && i < |Combos(s[first..last], mid - first)|
    requires Shuffled(Chosen(s, first, mid, last, i), y, first, mid)
    ensures |y| == |s| && multiset(y[first..mid]) <= multiset(s[first..last])
  {
    hide Combos, Chosen;
    ChosenSlices(s, first, mid, last, i);
    var c := Combos(s[first..last], mid - first)[i];
    assert c == c[..mid - first] + c[mid - first..];
  }

  /** Nothing is seen twice. */
  lemma SeenOnce<T>(g: Functor, s: seq<T>, first: nat, mid: nat, last: nat)
    requires g.Fits(|s|) && first <= mid <= last <= |s| && NoDup(s[first..last])
    requires forall x: seq<T>, y: seq<T> :: |x| == |s| && y in Visits(g, x) ==> Shuffled(x, y, first, mid)
    requires forall x: seq<T> :: |x| == |s| && NoDup(x[first..mid]) ==> NoDup(Visits(g, x))
    ensures NoDup(Seen(g, s, first, mid, last))
  {
    hide Visits, VisitsAll, Combos, Shuffled, NoDup, Ranges.Put;
    var R := Two(first, mid, mid, last);
    JoinedWhole(s, first, mid, last);
    var cs := Combos(s[first..last], mid - first);
    var X := PutAll(R, s, cs);
    forall i | 0 <= i < |X| ensures NoDup(Visits(g, X[i])) {
      assert X[i] == Chosen(s, first, mid, last, i);
      ChosenSlices(s, first, mid, last, i);
      NoDupMultiset(s[first..last], cs[i]);
      NoDupFront(cs[i], mid - first);
    }
    forall i, j | 0 <= i < j < |X| ensures Apart(Visits(g, X[i]), Visits(g, X[j])) {
      assert X[i] == Chosen(s, first, mid, last, i) && X[j] == Chosen(s, first, mid, last, j);
      forall y <- Visits(g, X[i]) ensures y !in Visits(g, X[j]) {
        if y in Visits(g, X[j]) {
          SameChoice(s, first, mid, last, i, j, y, y);
        }
      }
    }
    OnceAll(g, |s|, X);
    VisitsCombine(g, R, s);
    ViewsOnce(g, s, first, mid, last);
  }

  lemma NoDupFront<T>(c: seq<T>, k: nat)
    requires NoDup(c) && k <= |c|
    ensures NoDup(c[..k])
  {}

  lemma ViewsOnce<T>(g: Functor, s: seq<T>, first: nat, mid: nat, last: nat)
    requires g.Fits(|s|) && first <= mid <= last <= |s| && NoDup(s[first..last])
    requires forall x: seq<T>, y: seq<T> :: |x| == |s| && y in Visits(g, x) ==> Shuffled(x, y, first, mid)
    requires NoDup(Visits(Combine(g, Two(first, mid, mid, last)), s))
    ensures NoDup(Seen(g, s, first, mid, last))
  {
    hide Visits, Combos, Shuffled;
    var all := Visits(Combine(g, Two(first, mid, mid, last)), s);
    forall p, q | 0 <= p < q < |all| ensures all[p][first..mid] != all[q][first..mid] {
      var y, w := all[p], all[q];
      assert y in all && w in all && y != w;
      if y[first..mid] == w[first..mid] {
        InForEach(g, s, first, mid, last, y);
        InForEach(g, s, first, mid, last, w);
        var i :| 0 <= i < |Combos(s[first..last], mid - first)| && y in Visits(g, Chosen(s, first, mid, last, i));
        var j :| 0 <= j < |Combos(s[first..last], mid - first)| && w in Visits(g, Chosen(s, first, mid, last, j));
        SameChoice(s, first, mid, last, i, j, y, w);
        ShuffledAlike(Chosen(s, first, mid, last, i), y, w, first, mid);
      }
    }
  }

  // ----- for_each_permutation

  lemma PermuteIsShuffle<T>(l: nat, r: nat, x: seq<T>, y: seq<T>)
    requires l <= r <= |x|
    ensures y in Visits(Permute(User, l, r), x) <==> Shuffled(x, y, l, r)
  {
    hide Visits;
    In1(l, r, x, y);
    if |y| == |x| {
      assert x[r..r] == y[r..r];
    }
  }

  /** for_each_permutation shows exactly the arrangements of k of the elements,
      each of them once. */
  lemma PermutationsSeen<T>(s: seq<T>, first: nat, mid: nat, last: nat, z: seq<T>)
    requires first <= mid <= last <= |s| && NoDup(s[first..last])
    ensures var seen := Seen(Permute(User, first, mid), s, first, mid, last);
      && (z in seen <==> |z| == mid - first && multiset(z) <= multiset(s[first..last]))
      && NoDup(seen)
  {
    hide Visits, Seen, Shuffled, NoDup, Combos, Chosen, Ranges.Put;
    var g := Permute(User, first, mid);
    forall x: seq<T>, y: seq<T> | |x| == |s| && y in Visits(g, x) ensures Shuffled(x, y, first, mid) {
      PermuteIsShuffle(first, mid, x, y);
    }
    forall x: seq<T> | |x| == |s| && NoDup(x[first..mid]) ensures NoDup(Visits(g, x)) {
      Once1(first, mid, x);
    }
    SeenOnce(g, s, first, mid, last);
    if z in Seen(g, s, first, mid, last) {
      OnlySeen(g, s, first, mid, last, z);
    }
    if |z| == mid - first && multiset(z) <= multiset(s[first..last]) {
      var i := InSeen(g, s, first, mid, last, z);
      var t := Chosen(s, first, mid, last, i);
      PermuteIsShuffle(first, mid, t, One(first, mid).Put(t, z));
    }
  }

  // ----- for_each_reversible_permutation

  lemma ReversibleConfined<T>(l: nat, r: nat, x: seq<T>, y: seq<T>)
    requires l <= r <= |x| && y in ReversibleVisits(User, x, l, r)
    ensures Shuffled(x, y, l, r)
  {
    hide Shuffled, HeldFrom, MiddleVisits;
    if r - l >= 2 {
      InReversible(x, l, r, y);
    } else {
      assert y == x;
      assert Shuffled(x, x, l, r) by { ShuffledSelf(x, l, r); }
    }
  }

  lemma ShuffledSelf<T>(x: seq<T>, l: nat, r: nat)
    requires l <= r <= |x|
    ensures Shuffled(x, x, l, r)
  {}

  lemma ReversibleOnce<T>(l: nat, r: nat, x: seq<T>)
    requires l <= r <= |x| && NoDup(x[l..r])
    ensures NoDup(ReversibleVisits(User, x, l, r))
  {
    hide HeldFrom, MiddleVisits;
    if r - l >= 2 {
      OnceReversible(x, l, r);
    }
  }

  /** for_each_reversible_permutation shows, of every arrangement of k of the
      elements and its reversal, exactly one, and shows it once. */
  lemma ReversiblesSeen<T>(s: seq<T>, first: nat, mid: nat, last: nat, z: seq<T>)
    requires first <= mid <= last <= |s| && NoDup(s[first..last])
    ensures var seen := Seen(Reversible(User, first, mid), s, first, mid, last);
      && (z in seen || Reversed(z) in seen <==> |z| == mid - first && multiset(z) <= multiset(s[first..last]))
      && (z != Reversed(z) ==> !(z in seen && Reversed(z) in seen))
      && NoDup(seen)
  {
    hide Visits, Seen, Shuffled, NoDup, Reversed;
    var g := Reversible(User, first, mid);
    forall x: seq<T>, y: seq<T> | |x| == |s| && y in Visits(g, x) ensures Shuffled(x, y, first, mid) {
      VisitsReversible(first, mid, x);
      ReversibleConfined(first, mid, x, y);
    }
    forall x: seq<T> | |x| == |s| && NoDup(x[first..mid]) ensures NoDup(Visits(g, x)) {
      VisitsReversible(first, mid, x);
      ReversibleOnce(first, mid, x);
    }
    SeenOnce(g, s, first, mid, last);
    ReversedKeeps(z);
    if z in Seen(g, s, first, mid, last) {
      OnlySeen(g, s, first, mid, last, z);
    }
    if Reversed(z) in Seen(g, s, first, mid, last) {
      OnlySeen(g, s, first, mid, last, Reversed(z));
    }
    if |z| == mid - first && multiset(z) <= multiset(s[first..last]) {
      OneReversible(g, s, first, mid, last, z);
    }
  }

  lemma VisitsReversible<T>(l: nat, r: nat, x: seq<T>)
    requires l <= r <= |x|
    ensures Visits(Reversible(User, l, r), x) == ReversibleVisits(User, x, l, r)
  {
    hide ReversibleVisits;
  }

  lemma {:induction false} ReversedKeeps<T>(z: seq<T>)
    ensures multiset(Reversed(z)) == multiset(z)
    decreases |z|
  {
    if z == [] {
    } else {
      assert Reversed(z) == Reversed(z[1..]) + [z[0]];
      assert z == [z[0]] + z[1..];
      ReversedKeeps(z[1..]);
    }
  }

  lemma OneReversible<T>(g: Functor, s: seq<T>, first: nat, mid: nat, last: nat, z: seq<T>)
    requires first <= mid <= last <= |s| && NoDup(s[first..last]) && g == Reversible(User, first, mid)
    requires forall x: seq<T>, y: seq<T> :: |x| == |s| && y in Visits(g, x) ==> Shuffled(x, y, first, mid)
    requires |z| == mid - first && multiset(z) <= multiset(s[first..last])
    ensures var seen := Seen(g, s, first, mid, last);
      (z in seen || Reversed(z) in seen) && (z != Reversed(z) ==> !(z in seen && Reversed(z) in seen))
  {
    hide Visits, Seen, Shuffled, NoDup, Combos, Chosen, Ranges.Put, ReversibleVisits, Reversed, Earlier;
    var w, k := Reversed(z), mid - first;
    var cs := Combos(s[first..last], k);
    ReversedKeeps(z);
    var i := InSeen(g, s, first, mid, last, z);
    var j := InSeen(g, s, first, mid, last, w);
    if i != j {
      CombosDistinct(s[first..last], k, if i < j then i else j, if i < j then j else i);
    }
    var t, c := Chosen(s, first, mid, last, i), cs[i][..k];
    VisitsReversible(first, mid, t);
    if k >= 2 {
      InReversible(t, first, mid, One(first, mid).Put(t, z));
      InReversible(t, first, mid, One(first, mid).Put(t, w));
      CombosKeep(s[first..last], k, i);
      NoDupMultiset(s[first..last], cs[i]);
      assert NoDup(c) by { NoDupFront(cs[i], k); }
      OneOfEach(c, z);
    } else {
      TrivialReversible(t, first, mid, z, c);
    }
  }

  lemma TrivialReversible<T>(t: seq<T>, first: nat, mid: nat, z: seq<T>, c: seq<T>)
    requires first <= mid <= |t| && mid - first < 2 && |z| == mid - first && c == t[first..mid]
    requires multiset(c) == multiset(z)
    ensures Reversed(z) == z && One(first, mid).Put(t, z) in ReversibleVisits(User, t, first, mid)
  {
    if |z| == 1 {
      assert z[0] in multiset(c);
      assert c == [c[0]];
    }
    assert z == c;
    assert One(first, mid).Put(t, z) == t;
  }

  // ----- for_each_circular_permutation and its reversible form

  function Rotation<T>(z: seq<T>, d: nat): (w: seq<T>)
    requires d <= |z|
    ensures |w| == |z|
  {
    z[d..] + z[..d]
  }

  lemma RotationKeeps<T>(z: seq<T>, d: nat)
    requires d <= |z|
    ensures multiset(Rotation(z, d)) == multiset(z)
    ensures d < |z| ==> Rotation(z, d)[0] == z[d]
  {
    assert z == z[..d] + z[d..];
  }

  lemma InCircular<T>(l: nat, r: nat, x: seq<T>, y: seq<T>)
    requires l < r <= |x|
    ensures y in Visits(Circular(User, l, r), x) <==> Shuffled(x, y, l, r) && y[l] == x[l]
    ensures NoDup(x[l..r]) ==> NoDup(Visits(Circular(User, l, r), x))
  {
    hide Visits, Shuffled;
    if r - l == 1 {
      VisitsCircularOne(l, r, x);
      HeadFixed(x, y, l);
    } else {
      VisitsCircularMany(User, l, r, x);
      InFirst(x, l, r, y);
      if NoDup(x[l..r]) {
        NoDupRest(x, l, 1, r);
        Once1(l + 1, r, x);
      }
    }
  }

  lemma VisitsCircularOne<T>(l: nat, r: nat, x: seq<T>)
    requires l < r <= |x| && r - l == 1
    ensures Visits(Circular(User, l, r), x) == [x]
  {
    hide VisitsAll, Perms, Combos, PutAll, ReversibleVisits;
  }

  lemma VisitsCircularMany<T>(g: Functor, l: nat, r: nat, x: seq<T>)
    requires g.Fits(|x|) && l + 1 < r <= |x|
    ensures Visits(Circular(g, l, r), x) == Visits(Permute(g, l + 1, r), x)
  {
    hide *;
    VisitsPermute(g, l + 1, r, x);
    CircularIs(g, l, r, x);
  }

  lemma CircularIs<T>(g: Functor, l: nat, r: nat, x: seq<T>)
    requires g.Fits(|x|) && l + 1 < r <= |x|
    ensures Visits(Circular(g, l, r), x) == PermuteVisits(g, x, l + 1, r)
  {
    hide PermuteVisits, ReversibleVisits, CombineVisits, VisitsAll;
  }

  lemma HeadFixed<T>(x: seq<T>, y: seq<T>, l: nat)
    requires l < |x|
    ensures y == x <==> Shuffled(x, y, l, l + 1) && y[l] == x[l]
  {}

  /** w is z, read in a circle from some place on. */
  ghost predicate IsRotation<T>(z: seq<T>, w: seq<T>) {
    exists d: nat :: d <= |z| && w == Rotation(z, d)
  }

  lemma RotationBelow<T>(z: seq<T>, d: nat)
    requires d <= |z| && z != []
    ensures Rotation(z, d) == Rotation(z, if d == |z| then 0 else d)
  {
    assert z[|z|..] + z[..|z|] == z[0..] + z[..0];
  }

  /** for_each_circular_permutation shows, of all rotations of an arrangement of
      k of the elements, exactly one, and shows it once. */
  lemma CircularsSeen<T>(s: seq<T>, first: nat, mid: nat, last: nat, z: seq<T>) returns (w: seq<T>)
    requires first <= mid <= last <= |s| && NoDup(s[first..last])
    requires |z| == mid - first && multiset(z) <= multiset(s[first..last])
    ensures var seen := Seen(Circular(User, first, mid), s, first, mid, last);
      && w in seen && IsRotation(z, w) && (forall v :: v in seen && IsRotation(z, v) ==> v == w) && NoDup(seen)
  {
    hide Seen, NoDup;
    var seen := Seen(Circular(User, first, mid), s, first, mid, last);
    if first == mid {
      forall x: seq<T> | |x| == |s| ensures Visits(Circular(User, first, mid), x) == [x] {
        VisitsPlain(first, mid, x);
      }
      hide Visits;
      w := PlainSeen(Circular(User, first, mid), s, first, mid, last, z);
      assert w == Rotation(z, 0);
    } else {
      hide Visits;
      var d := OneRotation(s, first, mid, last, z);
      w := Rotation(z, d);
      forall v | v in seen && IsRotation(z, v) ensures v == w {
        var d' :| 0 <= d' <= |z| && v == Rotation(z, d');
        RotationBelow(z, d');
      }
    }
  }

  lemma VisitsPlain<T>(l: nat, r: nat, x: seq<T>)
    requires l <= r <= |x|
    ensures r - l <= 1 ==> Visits(Circular(User, l, r), x) == [x]
    ensures r - l <= 2 ==> Visits(ReversibleCircular(User, l, r), x) == [x]
  {
    hide PermuteVisits, CombineVisits, MiddleVisits, HeldFrom;
    assert Visits(User, x) == [x];
  }

  /** Where the adapter shows each combination as it is, what is seen of the
      arrangements of the elements of z is the combination itself. */
  lemma PlainSeen<T>(g: Functor, s: seq<T>, first: nat, mid: nat, last: nat, z: seq<T>) returns (c: seq<T>)
    requires g.Fits(|s|) && first <= mid <= last <= |s| && NoDup(s[first..last])
    requires |z| == mid - first && multiset(z) <= multiset(s[first..last])
    requires forall x: seq<T> :: |x| == |s| ==> Visits(g, x) == [x]
    ensures var seen := Seen(g, s, first, mid, last);
      && c in seen && multiset(c) == multiset(z) && |c| == |z| && NoDup(seen)
      && forall v :: v in seen && multiset(v) == multiset(z) ==> v == c
  {
    hide Visits, Seen, Shuffled, NoDup, Combos, Chosen, Ranges.Put;
    forall x: seq<T>, y: seq<T> | |x| == |s| && y in Visits(g, x) ensures Shuffled(x, y, first, mid) {
      assert y == x;
      ShuffledSelf(x, first, mid);
    }
    forall x: seq<T> | |x| == |s| ensures NoDup(Visits(g, x)) {
      OneNoDup(x);
    }
    SeenOnce(g, s, first, mid, last);
    var k := mid - first;
    var i := InSeen(g, s, first, mid, last, z);
    c := Combos(s[first..last], k)[i][..k];
    SameLength(z, c);
    PlainAt(g, s, first, mid, last, c, i);
    forall v | v in Seen(g, s, first, mid, last) && multiset(v) == multiset(z) ensures v == c {
      SameLength(z, v);
      PlainAt(g, s, first, mid, last, v, i);
    }
  }

  lemma OneNoDup<X>(x: X)
    ensures NoDup([x])
  {}

  lemma PlainAt<T>(g: Functor, s: seq<T>, first: nat, mid: nat, last: nat, v: seq<T>, i: nat)
    requires g.Fits(|s|) && first <= mid <= last <= |s| && NoDup(s[first..last])
    requires forall x: seq<T> :: |x| == |s| ==> Visits(g, x) == [x]
    requires forall x: seq<T>, y: seq<T> :: |x| == |s| && y in Visits(g, x) ==> Shuffled(x, y, first, mid)
    requires |v| == mid - first && multiset(v) <= multiset(s[first..last])
    requires i < |Combos(s[first..last], mid - first)|
    requires multiset(Combos(s[first..last], mid - first)[i][..mid - first]) == multiset(v)
    ensures v in Seen(g, s, first, mid, last) <==> v == Combos(s[first..last], mid - first)[i][..mid - first]
  {
    hide Visits, Seen, Shuffled, NoDup, Combos, Chosen, Ranges.Put;
    var k := mid - first;
    var cs := Combos(s[first..last], k);
    var j := InSeen(g, s, first, mid, last, v);
    if i != j {
      CombosDistinct(s[first..last], k, if i < j then i else j, if i < j then j else i);
    }
    var t := Chosen(s, first, mid, last, i);
    assert Visits(g, t) == [t];
    PutSame(t, v, first, mid);
  }

  lemma PutSame<T>(t: seq<T>, v: seq<T>, first: nat, mid: nat)
    requires first <= mid <= |t| && |v| == mid - first
    ensures One(first, mid).Put(t, v) == t <==> v == t[first..mid]
  {
    var u := One(first, mid).Put(t, v);
    assert u[first..mid] == v;
    if v == t[first..mid] {
      forall k | 0 <= k < |t| ensures u[k] == t[k] {
        if first <= k < mid {
          assert u[first..mid][k - first] == u[k] && t[first..mid][k - first] == t[k];
        }
      }
    }
  }

  lemma OneRotation<T>(s: seq<T>, first: nat, mid: nat, last: nat, z: seq<T>) returns (d: nat)
    requires first < mid <= last <= |s| && NoDup(s[first..last])
    requires |z| == mid - first && multiset(z) <= multiset(s[first..last])
    ensures d < |z| && Rotation(z, d) in Seen(Circular(User, first, mid), s, first, mid, last)
    ensures forall d' ::
      0 <= d' < |z| && Rotation(z, d') in Seen(Circular(User, first, mid), s, first, mid, last) ==> d' == d
    ensures NoDup(Seen(Circular(User, first, mid), s, first, mid, last))
  {
    hide Visits, Seen, Shuffled, Combos, Chosen, Ranges.Put, Rotation;
    var g := Circular(User, first, mid);
    forall x: seq<T>, y: seq<T> | |x| == |s| && y in Visits(g, x) ensures Shuffled(x, y, first, mid) {
      InCircular(first, mid, x, y);
    }
    forall x: seq<T> | |x| == |s| && NoDup(x[first..mid]) ensures NoDup(Visits(g, x)) {
      InCircular(first, mid, x, x);
    }
    SeenOnce(g, s, first, mid, last);
    var i := InSeen(g, s, first, mid, last, z);
    var t, c := Chosen(s, first, mid, last, i), Combos(s[first..last], mid - first)[i][..mid - first];
    assert t[first] == t[first..mid][0] == c[0];
    assert c[0] in multiset(c);
    d :| 0 <= d < |z| && z[d] == c[0];
    ChosenDistinct(s, first, mid, last, i, z);
    forall d' | 0 <= d' < |z|
      ensures Rotation(z, d') in Seen(g, s, first, mid, last) <==> d' == d
    {
      CircularAt(g, s, first, mid, last, z, d', i);
      assert z[d'] == z[d] ==> d' == d;
    }
  }

  lemma ChosenDistinct<T>(s: seq<T>, first: nat, mid: nat, last: nat, i: nat, z: seq<T>)
    requires first <= mid <= last <= |s| && NoDup(s[first..last])
    requires i < |Combos(s[first..last], mid - first)|
    requires multiset(Combos(s[first..last], mid - first)[i][..mid - first]) == multiset(z)
    ensures NoDup(Combos(s[first..last], mid - first)[i][..mid - first]) && NoDup(z)
  {
    hide Combos;
    var k, c := mid - first, Combos(s[first..last], mid - first)[i];
    CombosKeep(s[first..last], k, i);
    NoDupMultiset(s[first..last], c);
    NoDupFront(c, k);
    NoDupMultiset(c[..k], z);
  }

  lemma CircularAt<T>(g: Functor, s: seq<T>, first: nat, mid: nat, last: nat, z: seq<T>, d: nat, i: nat)
    requires first < mid <= last <= |s| && NoDup(s[first..last]) && g == Circular(User, first, mid)
    requires forall x: seq<T>, y: seq<T> :: |x| == |s| && y in Visits(g, x) ==> Shuffled(x, y, first, mid)
    requires |z| == mid - first && multiset(z) <= multiset(s[first..last]) && d < |z|
    requires i < |Combos(s[first..last], mid - first)|
    requires multiset(Combos(s[first..last], mid - first)[i][..mid - first]) == multiset(z)
    ensures Rotation(z, d) in Seen(g, s, first, mid, last) <==> z[d] == Combos(s[first..last], mid - first)[i][0]
  {
    hide Visits, Seen, Shuffled, NoDup, Combos, Chosen, Ranges.Put, Rotation;
    var w, k := Rotation(z, d), mid - first;
    var cs := Combos(s[first..last], k);
    RotationKeeps(z, d);
    var j := InSeen(g, s, first, mid, last, w);
    if i != j {
      CombosDistinct(s[first..last], k, if i < j then i else j, if i < j then j else i);
    }
    var t := Chosen(s, first, mid, last, i);
    var y := One(first, mid).Put(t, w);
    InCircular(first, mid, t, y);
    assert y[first] == y[first..mid][0] && t[first] == t[first..mid][0] == cs[i][..k][0];
  }

  /** The arrangement or its reversal, rotated. */
  function Turn<T>(z: seq<T>, flip: bool, d: nat): (w: seq<T>)
    requires d <= |z|
    ensures |w| == |z|
  {
    Rotation(if flip then Reversed(z) else z, d)
  }

  lemma InReversibleCircular<T>(l: nat, r: nat, x: seq<T>, y: seq<T>)
    requires l + 3 <= r <= |x|
    ensures y in Visits(ReversibleCircular(User, l, r), x) <==>
      Shuffled(x, y, l, r) && y[l] == x[l] && Earlier(x[l + 1..r], y[l + 1..r])
    ensures NoDup(x[l..r]) ==> NoDup(Visits(ReversibleCircular(User, l, r), x))
  {
    hide ReversibleVisits, Earlier;
    assert Visits(ReversibleCircular(User, l, r), x) == ReversibleVisits(User, x, l + 1, r);
    hide Visits;
    InReversible(x, l + 1, r, y);
    InFirst(x, l, r, y);
    PermuteIsShuffle(l + 1, r, x, y);
    if NoDup(x[l..r]) {
      NoDupRest(x, l, 1, r);
      OnceReversible(x, l + 1, r);
    }
  }

  /** w is z, read in a circle from some place on, in one of the two directions. */
  ghost predicate IsTurn<T>(z: seq<T>, w: seq<T>) {
    exists flip, d: nat :: d <= |z| && w == Turn(z, flip, d)
  }

  /** for_each_reversible_circular_permutation shows, of all rotations of an
      arrangement of k of the elements and of its reversal, exactly one, and once. */
  lemma ReversibleCircularsSeen<T>(s: seq<T>, first: nat, mid: nat, last: nat, z: seq<T>) returns (w: seq<T>)
    requires first <= mid <= last <= |s| && NoDup(s[first..last])
    requires |z| == mid - first && multiset(z) <= multiset(s[first..last])
    ensures var seen := Seen(ReversibleCircular(User, first, mid), s, first, mid, last);
      && w in seen && IsTurn(z, w) && (forall v :: v in seen && IsTurn(z, v) ==> v == w) && NoDup(seen)
  {
    hide Seen, NoDup;
    var seen := Seen(ReversibleCircular(User, first, mid), s, first, mid, last);
    if mid - first <= 2 {
      forall x: seq<T> | |x| == |s| ensures Visits(ReversibleCircular(User, first, mid), x) == [x] {
        VisitsPlain(first, mid, x);
      }
      hide Visits;
      w := PlainSeen(ReversibleCircular(User, first, mid), s, first, mid, last, z);
      ShortIsTurn(z, w);
      forall v | v in seen && IsTurn(z, v) ensures v == w {
        TurnKeeps(z, v);
      }
    } else {
      hide Visits;
      var flip, d := OneTurn(s, first, mid, last, z);
      w := Turn(z, flip, d);
      forall v | v in seen && IsTurn(z, v) ensures v == w {
        var f, d' :| 0 <= d' <= |z| && v == Turn(z, f, d');
        RotationBelow(if f then Reversed(z) else z, d');
        assert v == Turn(z, f, if d' == |z| then 0 else d');
      }
    }
  }

  lemma TurnKeeps<T>(z: seq<T>, v: seq<T>)
    requires IsTurn(z, v)
    ensures multiset(v) == multiset(z)
  {
    var f, d :| 0 <= d <= |z| && v == Turn(z, f, d);
    ReversedKeeps(z);
    RotationKeeps(if f then Reversed(z) else z, d);
  }

  /** Two elements or fewer: every arrangement is a rotation. */
  lemma ShortIsTurn<T>(z: seq<T>, w: seq<T>)
    requires |z| == |w| <= 2 && multiset(w) == multiset(z)
    ensures IsTurn(z, w)
  {
    if |z| == 2 {
      assert z == [z[0]] + [z[1]] && w == [w[0]] + [w[1]];
      assert w[0] in multiset(z) && w[1] in multiset(z) && z[0] in multiset(w) && z[1] in multiset(w);
      assert w == Turn(z, false, 0) || w == Turn(z, false, 1);
    } else {
      if |z| == 1 {
        assert w[0] in multiset(z);
      }
      assert w == Turn(z, false, 0);
    }
  }

  lemma OneTurn<T>(s: seq<T>, first: nat, mid: nat, last: nat, z: seq<T>) returns (flip: bool, d: nat)
    requires first + 3 <= mid <= last <= |s| && NoDup(s[first..last])
    requires |z| == mid - first && multiset(z) <= multiset(s[first..last])
    ensures d < |z| && Turn(z, flip, d) in Seen(ReversibleCircular(User, first, mid), s, first, mid, last)
    ensures var seen := Seen(ReversibleCircular(User, first, mid), s, first, mid, last);
      forall f, d' :: 0 <= d' < |z| && Turn(z, f, d') in seen ==> f == flip && d' == d
    ensures NoDup(Seen(ReversibleCircular(User, first, mid), s, first, mid, last))
  {
    hide Visits, Seen, Shuffled, Combos, Chosen, Ranges.Put, Rotation, Earlier, Reversed;
    var g := ReversibleCircular(User, first, mid);
    forall x: seq<T>, y: seq<T> | |x| == |s| && y in Visits(g, x) ensures Shuffled(x, y, first, mid) {
      InReversibleCircular(first, mid, x, y);
    }
    forall x: seq<T> | |x| == |s| && NoDup(x[first..mid]) ensures NoDup(Visits(g, x)) {
      InReversibleCircular(first, mid, x, x);
    }
    SeenOnce(g, s, first, mid, last);
    var i := InSeen(g, s, first, mid, last, z);
    var c := Combos(s[first..last], mid - first)[i][..mid - first];
    assert c[0] in multiset(c);
    var p :| 0 <= p < |z| && z[p] == c[0];
    var q := |z| - 1 - p;
    ChosenDistinct(s, first, mid, last, i, z);
    var u, v := Rotation(z, p), Rotation(Reversed(z), q);
    MirrorTails(z, p);
    HeadRest(c, u, z, p);
    OneOfEach(c[1..], u[1..]);
    flip := !Earlier(c[1..], u[1..]);
    d := if flip then q else p;
    forall f, d' | 0 <= d' < |z|
      ensures Turn(z, f, d') in Seen(g, s, first, mid, last) <==> f == flip && d' == d
    {
      TurnAt(g, s, first, mid, last, z, f, d', i);
      TurnHead(z, f, d', p);
    }
  }

  lemma TurnHead<T>(z: seq<T>, flip: bool, d: nat, p: nat)
    requires NoDup(z) && d < |z| && p < |z|
    ensures Turn(z, flip, d)[0] == z[p] <==> d == if flip then |z| - 1 - p else p
  {
    RotationKeeps(if flip then Reversed(z) else z, d);
  }

  /** Rotated to the same head, an arrangement and its reversal have tails that
      are reversals of each other. */
  lemma MirrorTails<T>(z: seq<T>, p: nat)
    requires p < |z|
    ensures Rotation(Reversed(z), |z| - 1 - p)[1..] == Reversed(Rotation(z, p)[1..])
  {
    hide Rotation;
    var n, m: nat := |z|, |z| - 1 - p;
    var u, v := Rotation(z, p)[1..], Rotation(Reversed(z), m)[1..];
    forall k: nat | k < n - 1 ensures v[k] == Reversed(u)[k] {
      RotationAt(z, p, n - 1 - k);
      RotationAt(Reversed(z), m, k + 1);
      assert Reversed(u)[k] == u[n - 2 - k] == Rotation(z, p)[n - 1 - k];
    }
  }

  lemma RotationAt<T>(z: seq<T>, d: nat, k: nat)
    requires d <= |z| && k < |z|
    ensures |Rotation(z, d)| == |z| && Rotation(z, d)[k] == if d + k < |z| then z[d + k] else z[d + k - |z|]
  {}

  lemma HeadRest<T>(c: seq<T>, u: seq<T>, z: seq<T>, p: nat)
    requires p < |z| && u == Rotation(z, p) && multiset(c) == multiset(z) && |c| == |z| && c[0] == z[p] && NoDup(c)
    ensures multiset(c[1..]) == multiset(u[1..]) && NoDup(c[1..])
  {
    RotationKeeps(z, p);
    assert c == [c[0]] + c[1..] && u == [u[0]] + u[1..];
    Cancel(multiset{c[0]}, multiset(c[1..]), multiset(u[1..]));
  }

  lemma TurnAt<T>(g: Functor, s: seq<T>, first: nat, mid: nat, last: nat, z: seq<T>, flip: bool, d: nat, i: nat)
    requires first + 3 <= mid <= last <= |s| && NoDup(s[first..last]) && g == ReversibleCircular(User, first, mid)
    requires forall x: seq<T>, y: seq<T> :: |x| == |s| && y in Visits(g, x) ==> Shuffled(x, y, first, mid)
    requires |z| == mid - first && multiset(z) <= multiset(s[first..last]) && d < |z|
    requires i < |Combos(s[first..last], mid - first)|
    requires multiset(Combos(s[first..last], mid - first)[i][..mid - first]) == multiset(z)
    ensures var c, w := Combos(s[first..last], mid - first)[i][..mid - first], Turn(z, flip, d);
      w in Seen(g, s, first, mid, last) <==> w[0] == c[0] && Earlier(c[1..], w[1..])
  {
    hide Visits, Seen, Shuffled, NoDup, Combos, Chosen, Ranges.Put, Rotation, Reversed, Earlier;
    var w, k := Turn(z, flip, d), mid - first;
    var cs := Combos(s[first..last], k);
    ReversedKeeps(z);
    RotationKeeps(if flip then Reversed(z) else z, d);
    var j := InSeen(g, s, first, mid, last, w);
    if i != j {
      CombosDistinct(s[first..last], k, if i < j then i else j, if i < j then j else i);
    }
    var t := Chosen(s, first, mid, last, i);
    var y := One(first, mid).Put(t, w);
    InReversibleCircular(first, mid, t, y);
    assert y[first] == y[first..mid][0] && t[first] == t[first..mid][0] == cs[i][..k][0];
    assert y[first + 1..mid] == y[first..mid][1..] && t[first + 1..mid] == t[first..mid][1..];
  }
}
