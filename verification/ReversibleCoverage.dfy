/** The reversible enumeration shows, of each permutation and its reversal,
    exactly one, exactly once. */
module ReversibleCoverage {
  import opened Slots
  import opened Functors
  import opened Choices
  import opened Coverage

  /** The first element stands in the front half, or in the exact middle with the
      second element in the front half. */
  ghost predicate Earlier<T>(e: seq<T>, z: seq<T>)
    requires |e| == |z| >= 2
  {
    var h := |e| / 2;
    || (exists i :: 0 <= i < h && z[i] == e[0])
    || (|e| % 2 == 1 && z[h] == e[0] && exists i :: 0 <= i < h && z[i] == e[1])
  }

  /** Exactly one of an arrangement and its reversal qualifies. */
  lemma OneOfEach<T>(e: seq<T>, z: seq<T>)
    requires |e| >= 2 && NoDup(e) && multiset(z) == multiset(e)
    ensures |z| == |e| && (Earlier(e, z) <==> !Earlier(e, Reversed(z)))
  {
    SameLength(e, z);
    NoDupMultiset(e, z);
    var n, h, w := |e|, |e| / 2, Reversed(z);
    assert e[0] in multiset(z) && e[1] in multiset(z);
    var p :| 0 <= p < n && z[p] == e[0];
    var q :| 0 <= q < n && z[q] == e[1];
    assert e[0] != e[1];
    assert w[n - 1 - p] == e[0] && w[n - 1 - q] == e[1];
    EarlierAt(e, z, p, q);
    NoDupReversed(z);
    EarlierAt(e, w, n - 1 - p, n - 1 - q);
  }

  lemma SameLength<T>(e: seq<T>, z: seq<T>)
    requires multiset(z) == multiset(e)
    ensures |z| == |e|
  {
    assert |z| == |multiset(z)| == |multiset(e)| == |e|;
  }

  lemma NoDupReversed<T>(z: seq<T>)
    requires NoDup(z)
    ensures NoDup(Reversed(z))
  {}

  lemma EarlierAt<T>(e: seq<T>, z: seq<T>, p: nat, q: nat)
    requires |e| == |z| >= 2 && NoDup(z) && p < |z| && q < |z| && z[p] == e[0] && z[q] == e[1]
    ensures Earlier(e, z) <==> p < |e| / 2 || (|e| % 2 == 1 && p == |e| / 2 && q < |e| / 2)
  {
    var h := |e| / 2;
    assert forall i :: 0 <= i < |z| && z[i] == e[0] ==> i == p;
    assert forall i :: 0 <= i < |z| && z[i] == e[1] ==> i == q;
  }

  /** `y` is `s` with the elements of [l, r) permuted. */
  ghost predicate Shuffled<T>(s: seq<T>, y: seq<T>, l: nat, r: nat)
    requires l <= r <= |s|
  {
    && |y| == |s| && (forall i {:trigger y[i]} :: 0 <= i < |s| && !(l <= i < r) ==> y[i] == s[i])
    && multiset(y[l..r]) == multiset(s[l..r])
  }

  lemma ShuffledDistinct<T>(s: seq<T>, y: seq<T>, l: nat, r: nat, i: nat, j: nat)
    requires l <= r <= |s| && Shuffled(s, y, l, r) && NoDup(s[l..r])
    requires l <= i < r && l <= j < r && y[i] == y[j]
    ensures i == j
  {
    NoDupMultiset(s[l..r], y[l..r]);
    assert y[l..r][i - l] == y[i] && y[l..r][j - l] == y[j];
  }

  /** Holding one element: the others are permuted jointly. */
  lemma HeldMeans<T>(s: seq<T>, l: nat, r: nat, i: nat, y: seq<T>)
    requires l + i < r <= |s|
    ensures Rearranged(Slide(s, l, i), y, Two(l, l + i, l + i + 1, r)) <==> Shuffled(s, y, l, r) && y[l + i] == s[l]
  {
    hide Slide, Ranges.Get;
    var t, R := Slide(s, l, i), Two(l, l + i, l + i + 1, r);
    HeldGet(s, l, r, i);
    assert multiset(s[l..r]) == multiset{s[l]} + multiset(R.Get(t)) by {
      assert s[l..r] == [s[l]] + s[l + 1..r];
    }
    if |y| == |s| {
      assert multiset(y[l..r]) == multiset{y[l + i]} + multiset(R.Get(y)) by {
        assert y[l..r] == y[l..l + i] + [y[l + i]] + y[l + i + 1..r];
        HeldTaken(l, r, i, y);
      }
      HeldOutside(s, l, r, i, y);
      if Shuffled(s, y, l, r) && y[l + i] == s[l] {
        Cancel(multiset{s[l]}, multiset(R.Get(y)), multiset(R.Get(t)));
      }
    }
  }

  lemma HeldGet<T>(s: seq<T>, l: nat, r: nat, i: nat)
    requires l + i < r <= |s|
    ensures Two(l, l + i, l + i + 1, r).Get(Slide(s, l, i)) == s[l + 1..r]
  {
    var t := Slide(s, l, i);
    assert t[l..l + i] == s[l + 1..l + i + 1] && t[l + i + 1..r] == s[l + i + 1..r];
  }

  lemma HeldTaken<T>(l: nat, r: nat, i: nat, y: seq<T>)
    requires l + i < r <= |y|
    ensures multiset(y[l..l + i]) + multiset(y[l + i + 1..r]) == multiset(Two(l, l + i, l + i + 1, r).Get(y))
  {
    assert Two(l, l + i, l + i + 1, r).Get(y) == y[l..l + i] + y[l + i + 1..r];
  }

  lemma HeldOutside<T>(s: seq<T>, l: nat, r: nat, i: nat, y: seq<T>)
    requires l + i < r <= |s| == |y|
    ensures SameOutside(Slide(s, l, i), y, Two(l, l + i, l + i + 1, r)) <==>
      (forall k {:trigger y[k]} :: 0 <= k < |s| && !(l <= k < r) ==> y[k] == s[k]) && y[l + i] == s[l]
  {
    var t := Slide(s, l, i);
    assert t[l + i] == s[l];
    assert forall k :: 0 <= k < |s| && !(l <= k < r) ==> t[k] == s[k];
  }

  function TwiceSlid<T>(s: seq<T>, l: nat, m: nat, i: nat, k: nat): T
    requires l + 2 <= m < |s| && i < m - l && k < |s|
  {
    if l <= k < l + i then s[k + 2] else if k == l + i then s[l + 1]
    else if l + i < k < m then s[k + 1] else if k == m then s[l] else s[k]
  }

  /** Holding two elements, the second of them in the middle. */
  lemma BothGet<T>(s: seq<T>, l: nat, m: nat, r: nat, i: nat)
    requires l + 2 <= m < r <= |s| && i < m - l
    ensures var t := Slide(Slide(s, l, m - l), l, i);
      && Ranges(l, l + i, l + i + 1, m, m + 1, r).Get(t) == s[l + 2..r] && t[l + i] == s[l + 1] && t[m] == s[l]
      && |t| == |s| && (forall k :: 0 <= k < |s| && !(l <= k < r) ==> t[k] == s[k])
  {
    var mid := Slide(s, l, m - l);
    var t := Slide(mid, l, i);
    hide Slide;
    forall k | 0 <= k < |s| ensures t[k] == TwiceSlid(s, l, m, i, k) {
      SlideAt(mid, l, i, k);
      SlideAt(s, l, m - l, if l <= k < l + i then k + 1 else if k == l + i then l else k);
    }
    TwiceSlidGet(s, t, l, m, r, i);
  }

  lemma TwiceSlidGet<T>(s: seq<T>, t: seq<T>, l: nat, m: nat, r: nat, i: nat)
    requires l + 2 <= m < r <= |s| && i < m - l && |t| == |s|
    requires forall k {:trigger t[k]} :: 0 <= k < |s| ==> t[k] == TwiceSlid(s, l, m, i, k)
    ensures Ranges(l, l + i, l + i + 1, m, m + 1, r).Get(t) == s[l + 2..r]
  {
    var A, B, C := s[l + 2..l + i + 2], s[l + i + 2..m + 1], s[m + 1..r];
    assert t[l..l + i] == A;
    assert t[l + i + 1..m] == B;
    assert t[m + 1..r] == C;
    assert A + B + C == s[l + 2..r];
  }

  lemma BothMeans<T>(s: seq<T>, l: nat, m: nat, r: nat, i: nat, y: seq<T>)
    requires l + 2 <= m < r <= |s| && i < m - l
    ensures Rearranged(Slide(Slide(s, l, m - l), l, i), y, Ranges(l, l + i, l + i + 1, m, m + 1, r))
      <==> Shuffled(s, y, l, r) && y[m] == s[l] && y[l + i] == s[l + 1]
  {
    hide *;
    var t, R := Slide(Slide(s, l, m - l), l, i), Ranges(l, l + i, l + i + 1, m, m + 1, r);
    BothHeld(s, l, m, r, i);
    if Rearranged(t, y, R) {
      BothOnly(s, t, R, m, y);
    }
    if |y| != |s| {
      NotShuffled(s, y, l, r);
    } else if Shuffled(s, y, l, r) && y[m] == s[l] && y[l + i] == s[l + 1] {
      BothBack(s, t, R, m, y);
    }
  }

  lemma BothHeld<T>(s: seq<T>, l: nat, m: nat, r: nat, i: nat)
    requires l + 2 <= m < r <= |s| && i < m - l
    ensures var t, R := Slide(Slide(s, l, m - l), l, i), Ranges(l, l + i, l + i + 1, m, m + 1, r);
      HoldsTwo(s, t, R, m) && R.Fits(|s|) && |t| == |s| && t[m] == s[l] && t[l + i] == s[l + 1]
  {
    hide Slide, Ranges.Get;
    BothGet(s, l, m, r, i);
    assert s[l..r] == [s[l], s[l + 1]] + s[l + 2..r];
    assert multiset(s[l..r]) == multiset{s[l], s[l + 1]} + multiset(s[l + 2..r]);
  }

  /** `t` holds two elements of the range at R.r1 and m. */
  ghost predicate HoldsTwo<T>(s: seq<T>, t: seq<T>, R: Ranges, m: nat) {
    && R.Fits(|s|) && R.r1 + 1 == R.l2 && R.r2 == m && m + 1 == R.l3 && |t| == |s|
    && multiset(s[R.l1..R.r3]) == multiset{t[m], t[R.r1]} + multiset(R.Get(t))
    && forall k {:trigger t[k]} :: 0 <= k < |s| && !(R.l1 <= k < R.r3) ==> t[k] == s[k]
  }

  lemma BothOnly<T>(s: seq<T>, t: seq<T>, R: Ranges, m: nat, y: seq<T>)
    requires HoldsTwo(s, t, R, m) && Rearranged(t, y, R)
    ensures |y| == |s| && Shuffled(s, y, R.l1, R.r3) && y[m] == t[m] && y[R.r1] == t[R.r1]
  {
    hide Ranges.Get;
    BothTaken(R, m, y);
  }

  lemma BothBack<T>(s: seq<T>, t: seq<T>, R: Ranges, m: nat, y: seq<T>)
    requires HoldsTwo(s, t, R, m) && Shuffled(s, y, R.l1, R.r3) && y[m] == t[m] && y[R.r1] == t[R.r1]
    ensures Rearranged(t, y, R)
  {
    hide Ranges.Get;
    BothTaken(R, m, y);
    Cancel(multiset{t[m], t[R.r1]}, multiset(R.Get(y)), multiset(R.Get(t)));
  }

  lemma BothTaken<T>(R: Ranges, m: nat, y: seq<T>)
    requires R.Fits(|y|) && R.r1 + 1 == R.l2 && R.r2 == m && m + 1 == R.l3
    ensures multiset(y[R.l1..R.r3]) == multiset{y[m], y[R.r1]} + multiset(R.Get(y))
  {
    var A, B, C := y[R.l1..R.r1], y[R.l2..R.r2], y[R.l3..R.r3];
    assert y[R.l1..R.r3] == A + [y[R.r1]] + B + [y[m]] + C;
  }

  /** The blocks of the enumeration, one by one. */
  lemma InFirst<T>(s: seq<T>, l: nat, r: nat, y: seq<T>)
    requires l < r <= |s|
    ensures y in Visits(Permute(User, l + 1, r), s) <==> Shuffled(s, y, l, r) && y[l] == s[l]
    ensures Visits(Permute(User, l + 1, r), s) == PermuteVisits(User, s, l + 1, r)
  {
    hide *;
    UserFits(|s|);
    VisitsPermute(User, l + 1, r, s);
    In1(l + 1, r, s, y);
    HeldMeans(s, l, r, 0, y);
    SlideStart(s, l);
    PartsIsRearranged(s, y, l, r);
  }

  lemma UserFits(n: nat)
    ensures User.Fits(n)
  {}

  lemma PartsIsRearranged<T>(s: seq<T>, y: seq<T>, l: nat, r: nat)
    requires l < r <= |s|
    ensures Parts(s, y, One(l + 1, r)) <==> Rearranged(s, y, Two(l, l, l + 1, r))
  {
    var R := Two(l, l, l + 1, r);
    assert R.Get(s) == s[l + 1..r];
    if |y| == |s| {
      assert R.Get(y) == y[l + 1..r];
      assert s[r..r] == y[r..r];
      assert SameOutside(s, y, R) <==> SameOutside(s, y, One(l + 1, r));
      hide SameOutside;
    }
  }

  lemma InHeld<T>(s: seq<T>, l: nat, r: nat, i: nat, y: seq<T>)
    requires 0 < i && l + i < r <= |s|
    ensures y in Held(User, s, l, r, i) <==> Shuffled(s, y, l, r) && y[l + i] == s[l]
  {
    hide Visits, Rearranged, Slide, Shuffled;
    InPair(Two(l, l + i, l + i + 1, r), Slide(s, l, i), y);
    HeldMeans(s, l, r, i, y);
  }

  lemma {:induction false} InHeldFrom<T>(s: seq<T>, l: nat, r: nat, i: nat, y: seq<T>)
    requires l <= r <= |s| && 0 < i
    ensures y in HeldFrom(User, s, l, r, i) <==>
      Shuffled(s, y, l, r) && exists p :: l + i <= p < l + (r - l) / 2 && y[p] == s[l]
    decreases r - i
  {
    hide Held, HeldFrom, Shuffled;
    HeldFromStep(User, s, l, r, i);
    if i >= (r - l) / 2 {
    } else {
      InHeld(s, l, r, i, y);
      InHeldFrom(s, l, r, i + 1, y);
    }
  }

  lemma InHeldBoth<T>(s: seq<T>, l: nat, m: nat, r: nat, i: nat, y: seq<T>)
    requires l + 2 <= m && m + 1 < r <= |s| && i < m - l
    ensures y in HeldBoth(User, Slide(s, l, m - l), l, m, r, i) <==>
      Shuffled(s, y, l, r) && y[m] == s[l] && y[l + i] == s[l + 1]
  {
    hide Visits, Visits3, Slide, Shuffled, Rearranged;
    var mid := Slide(s, l, m - l);
    var t, R := Slide(mid, l, i), Ranges(l, l + i, l + i + 1, m, m + 1, r);
    BothMeans(s, l, m, r, i, y);
    if i == 0 {
      SlideStart(mid, l);
      InPair(Two(l + 1, m, m + 1, r), mid, y);
      SameRanges(mid, y, R, Two(l + 1, m, m + 1, r));
    } else if i == m - l - 1 {
      InPair(Two(l, m - 1, m + 1, r), t, y);
      SameRanges(t, y, R, Two(l, m - 1, m + 1, r));
    } else {
      InThree(R, t, y);
    }
  }

  /** Dropping an empty range. */
  lemma SameRanges<T>(t: seq<T>, y: seq<T>, R: Ranges, Q: Ranges)
    requires R.Fits(|t|) && Q.Fits(|t|) && Q.l3 == Q.r3
    requires (R.l1 == R.r1 && Q.l1 == R.l2 && Q.r1 == R.r2 && Q.l2 == R.l3 && Q.r2 == R.r3)
          || (R.l2 == R.r2 && Q.l1 == R.l1 && Q.r1 == R.r1 && Q.l2 == R.l3 && Q.r2 == R.r3)
    ensures Rearranged(t, y, R) <==> Rearranged(t, y, Q)
  {
    hide Ranges.Get;
    SameGet(t, R, Q);
    if |y| == |t| {
      SameGet(y, R, Q);
    }
  }

  lemma {:induction false} InHeldBothFrom<T>(s: seq<T>, l: nat, m: nat, r: nat, i: nat, y: seq<T>)
    requires l + 2 <= m && m + 1 < r <= |s|
    ensures y in HeldBothFrom(User, Slide(s, l, m - l), l, m, r, i) <==>
      Shuffled(s, y, l, r) && y[m] == s[l] && exists p :: l + i <= p < m && y[p] == s[l + 1]
    decreases m - i
  {
    hide HeldBoth, HeldBothFrom, Shuffled, Slide;
    HeldBothFromStep(User, Slide(s, l, m - l), l, m, r, i);
    if i >= m - l {
    } else {
      InHeldBoth(s, l, m, r, i, y);
      InHeldBothFrom(s, l, m, r, i + 1, y);
    }
  }

  lemma InMiddle<T>(s: seq<T>, l: nat, r: nat, y: seq<T>)
    requires l + 3 <= r <= |s|
    ensures var h := (r - l) / 2;
      y in MiddleVisits(User, s, l, r) <==>
        Shuffled(s, y, l, r) && (r - l) % 2 == 1 && y[l + h] == s[l] && exists p :: l <= p < l + h && y[p] == s[l + 1]
  {
    hide HeldBothFrom, Shuffled, Slide;
    if (r - l) % 2 == 1 {
      if r - l == 3 {
        InSwappedPair(s, l, y);
      } else {
        InHeldBothFrom(s, l, l + (r - l) / 2, r, 0, y);
      }
    }
  }

  lemma InSwappedPair<T>(s: seq<T>, l: nat, y: seq<T>)
    requires l + 3 <= |s|
    ensures y == Slide(s, l, 1) <==> Shuffled(s, y, l, l + 3) && y[l + 1] == s[l] && y[l] == s[l + 1]
  {
    var t := Slide(s, l, 1);
    var a, b, c := s[l], s[l + 1], s[l + 2];
    forall k | 0 <= k < |s| ensures t[k] == if k == l then b else if k == l + 1 then a else s[k] {
      SlideAt(s, l, 1, k);
    }
    hide Slide;
    if y == t {
      SwappedKeeps(s[l..l + 3], 0, 1);
      assert y[l..l + 3] == Swapped(s[l..l + 3], 0, 1);
    }
    if Shuffled(s, y, l, l + 3) && y[l + 1] == a && y[l] == b {
      ThirdIsSame(s[l..l + 3], y[l..l + 3]);
      assert y[l..l + 3][2] == y[l + 2] && s[l..l + 3][2] == c;
      assert forall k :: 0 <= k < |s| ==> y[k] == t[k];
    }
  }

  lemma ThirdIsSame<T>(u: seq<T>, v: seq<T>)
    requires |u| == |v| == 3 && multiset(u) == multiset(v) && v[0] == u[1] && v[1] == u[0]
    ensures v[2] == u[2]
  {
    var p := multiset{u[0]} + multiset{u[1]};
    assert multiset(u) == p + multiset{u[2]} by { assert u == [u[0]] + [u[1]] + [u[2]]; }
    assert multiset(v) == p + multiset{v[2]} by { assert v == [v[0]] + [v[1]] + [v[2]]; }
    Cancel(p, multiset{u[2]}, multiset{v[2]});
    assert v[2] in multiset{v[2]};
  }

  lemma Cancel<T>(p: multiset<T>, M: multiset<T>, N: multiset<T>)
    requires p + M == p + N
    ensures M == N
  {
    assert p + M - p == M && p + N - p == N;
  }

  lemma InReversible<T>(s: seq<T>, l: nat, r: nat, y: seq<T>)
    requires l + 2 <= r <= |s|
    ensures y in ReversibleVisits(User, s, l, r) <==> Shuffled(s, y, l, r) && Earlier(s[l..r], y[l..r])
  {
    hide Visits, PermuteVisits, HeldFrom, MiddleVisits, Shuffled;
    var e := s[l..r];
    var h := (r - l) / 2;
    if r - l == 2 {
      InFirst(s, l, r, y);
      LastTwo(s, l, y);
    } else {
      InFirst(s, l, r, y);
      InHeldFrom(s, l, r, 1, y);
      InMiddle(s, l, r, y);
    }
    if |y| == |s| {
      EarlierMeans(s, y, l, r);
    } else {
      assert !Shuffled(s, y, l, r) by { NotShuffled(s, y, l, r); }
    }
  }

  lemma NotShuffled<T>(s: seq<T>, y: seq<T>, l: nat, r: nat)
    requires l <= r <= |s| && |y| != |s|
    ensures !Shuffled(s, y, l, r)
  {}

  lemma LastTwo<T>(s: seq<T>, l: nat, y: seq<T>)
    requires l + 2 <= |s|
    ensures y in Visits(User, s) <==> Shuffled(s, y, l, l + 2) && y[l] == s[l]
  {
    assert Visits(User, s) == [s];
    hide Visits;
    if Shuffled(s, y, l, l + 2) && y[l] == s[l] {
      SecondIsSame(s[l..l + 2], y[l..l + 2]);
      assert s[l..l + 2][1] == s[l + 1] && y[l..l + 2][1] == y[l + 1];
      assert y == s;
    }
  }

  lemma SecondIsSame<T>(u: seq<T>, v: seq<T>)
    requires |u| == |v| == 2 && multiset(u) == multiset(v) && v[0] == u[0]
    ensures v[1] == u[1]
  {
    assert u == [u[0]] + [u[1]] && v == [v[0]] + [v[1]];
    assert multiset(u) == multiset{u[0]} + multiset{u[1]} && multiset(v) == multiset{u[0]} + multiset{v[1]};
    Cancel(multiset{u[0]}, multiset{u[1]}, multiset{v[1]});
    assert v[1] in multiset{v[1]};
  }

  lemma EarlierMeans<T>(s: seq<T>, y: seq<T>, l: nat, r: nat)
    requires l + 2 <= r <= |s| == |y|
    ensures var h := (r - l) / 2;
      Earlier(s[l..r], y[l..r]) <==>
        || (exists p :: l <= p < l + h && y[p] == s[l])
        || ((r - l) % 2 == 1 && y[l + h] == s[l] && exists p :: l <= p < l + h && y[p] == s[l + 1])
  {
    var e, z, h := s[l..r], y[l..r], (r - l) / 2;
    forall p | l <= p < r ensures z[p - l] == y[p] {}
    if i :| 0 <= i < h && z[i] == e[0] {
      assert y[l + i] == s[l];
    }
    if i :| 0 <= i < h && z[i] == e[1] {
      assert y[l + i] == s[l + 1];
    }
    if p :| l <= p < l + h && y[p] == s[l] {
      assert z[p - l] == e[0];
    }
    if p :| l <= p < l + h && y[p] == s[l + 1] {
      assert z[p - l] == e[1];
    }
  }

  /** Nothing is shown twice. */
  lemma OnceHeld<T>(s: seq<T>, l: nat, r: nat, i: nat)
    requires 0 < i && l + i < r <= |s| && NoDup(s[l..r])
    ensures NoDup(Held(User, s, l, r, i))
  {
    hide Visits, Slide, Ranges.Get;
    HeldGet(s, l, r, i);
    NoDupRest(s, l, 1, r);
    OncePair(Two(l, l + i, l + i + 1, r), Slide(s, l, i));
  }

  lemma {:induction false} OnceHeldFrom<T>(s: seq<T>, l: nat, r: nat, i: nat)
    requires l <= r <= |s| && 0 < i && NoDup(s[l..r])
    ensures NoDup(HeldFrom(User, s, l, r, i))
    decreases r - i
  {
    hide Held, HeldFrom, Shuffled, NoDup;
    HeldFromStep(User, s, l, r, i);
    if i < (r - l) / 2 {
      OnceHeld(s, l, r, i);
      OnceHeldFrom(s, l, r, i + 1);
      var v, w := Held(User, s, l, r, i), HeldFrom(User, s, l, r, i + 1);
      forall y <- v ensures y !in w {
        InHeld(s, l, r, i, y);
        InHeldFrom(s, l, r, i + 1, y);
        if y in w {
          var p :| l + i + 1 <= p < l + (r - l) / 2 && y[p] == s[l];
          ShuffledDistinct(s, y, l, r, l + i, p);
        }
      }
      NoDupConcat(v, w);
    } else {
      NoDupNone<seq<T>>();
    }
  }

  lemma OnceHeldBoth<T>(s: seq<T>, l: nat, m: nat, r: nat, i: nat)
    requires l + 2 <= m && m + 1 < r <= |s| && i < m - l && NoDup(s[l..r])
    ensures NoDup(HeldBoth(User, Slide(s, l, m - l), l, m, r, i))
  {
    hide Visits, Visits3, Slide, Ranges.Get;
    var mid := Slide(s, l, m - l);
    var t, R := Slide(mid, l, i), Ranges(l, l + i, l + i + 1, m, m + 1, r);
    BothGet(s, l, m, r, i);
    NoDupRest(s, l, 2, r);
    if i == 0 {
      SlideStart(mid, l);
      SameGet(t, R, Two(l + 1, m, m + 1, r));
      OncePair(Two(l + 1, m, m + 1, r), mid);
    } else if i == m - l - 1 {
      SameGet(t, R, Two(l, m - 1, m + 1, r));
      OncePair(Two(l, m - 1, m + 1, r), t);
    } else {
      OnceThree(R, t);
    }
  }

  lemma SameGet<T>(t: seq<T>, R: Ranges, Q: Ranges)
    requires R.Fits(|t|) && Q.Fits(|t|) && Q.l3 == Q.r3
    requires (R.l1 == R.r1 && Q.l1 == R.l2 && Q.r1 == R.r2 && Q.l2 == R.l3 && Q.r2 == R.r3)
          || (R.l2 == R.r2 && Q.l1 == R.l1 && Q.r1 == R.r1 && Q.l2 == R.l3 && Q.r2 == R.r3)
    ensures R.Get(t) == Q.Get(t)
  {}

  lemma {:induction false} OnceHeldBothFrom<T>(s: seq<T>, l: nat, m: nat, r: nat, i: nat)
    requires l + 2 <= m && m + 1 < r <= |s| && NoDup(s[l..r])
    ensures NoDup(HeldBothFrom(User, Slide(s, l, m - l), l, m, r, i))
    decreases m - i
  {
    hide HeldBoth, HeldBothFrom, Shuffled, Slide, NoDup;
    var mid := Slide(s, l, m - l);
    HeldBothFromStep(User, mid, l, m, r, i);
    if i < m - l {
      OnceHeldBoth(s, l, m, r, i);
      OnceHeldBothFrom(s, l, m, r, i + 1);
      var v, w := HeldBoth(User, mid, l, m, r, i), HeldBothFrom(User, mid, l, m, r, i + 1);
      forall y <- v ensures y !in w {
        InHeldBoth(s, l, m, r, i, y);
        InHeldBothFrom(s, l, m, r, i + 1, y);
        if y in w {
          var p :| l + i + 1 <= p < m && y[p] == s[l + 1];
          ShuffledDistinct(s, y, l, r, l + i, p);
        }
      }
      NoDupConcat(v, w);
    } else {
      NoDupNone<seq<T>>();
    }
  }

  lemma OnceMiddle<T>(s: seq<T>, l: nat, r: nat)
    requires l + 3 <= r <= |s| && NoDup(s[l..r])
    ensures NoDup(MiddleVisits(User, s, l, r))
  {
    hide HeldBothFrom, Slide;
    if (r - l) % 2 == 1 && r - l > 3 {
      OnceHeldBothFrom(s, l, l + (r - l) / 2, r, 0);
    }
  }

  lemma OnceReversible<T>(s: seq<T>, l: nat, r: nat)
    requires l + 2 <= r <= |s| && NoDup(s[l..r])
    ensures NoDup(ReversibleVisits(User, s, l, r))
  {
    hide HeldFrom, MiddleVisits, Shuffled, Slide, Visits, PermuteVisits;
    if r - l == 2 {
      InUser(0, s, s);
    } else {
      var u, v, w := PermuteVisits(User, s, l + 1, r), HeldFrom(User, s, l, r, 1), MiddleVisits(User, s, l, r);
      NoDupRest(s, l, 1, r);
      Once1(l + 1, r, s);
      VisitsPermute(User, l + 1, r, s);
      OnceHeldFrom(s, l, r, 1);
      OnceMiddle(s, l, r);
      hide NoDup;
      forall y <- u ensures y !in v {
        InFirst(s, l, r, y);
        InHeldFrom(s, l, r, 1, y);
        if y in v {
          var p :| l + 1 <= p < l + (r - l) / 2 && y[p] == s[l];
          ShuffledDistinct(s, y, l, r, l, p);
        }
      }
      NoDupConcat(u, v);
      forall y <- u + v ensures y !in w {
        InFirst(s, l, r, y);
        InHeldFrom(s, l, r, 1, y);
        InMiddle(s, l, r, y);
        if y in w {
          var p :| l <= p < l + (r - l) / 2 && y[p] == s[l];
          ShuffledDistinct(s, y, l, r, p, l + (r - l) / 2);
        }
      }
      NoDupConcat(u + v, w);
    }
  }
}
